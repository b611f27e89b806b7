/**
 * Removal acts on a recorded (mailbox, UIDVALIDITY, UID). These are the theorems
 * that such a handle, once written down, can only ever take away its own message.
 */
module HandleSafety {
  import opened Outcomes
  import opened ImapServer
  import opened MailConventions
  import opened MailTarget

  // ----- what a removal may do to the server -----

  /** The mailbox of `h` has a later UIDVALIDITY than the one `h` was issued under. */
  predicate PassedBy(s: Server, h: Handle) {
    h.box in s.boxes && s.boxes[h.box].validity > h.validity
  }

  /** The one message, unless its mailbox has been recreated. */
  ghost function Only(s: Server, h: Handle): iset<Handle> {
    if PassedBy(s, h) then iset{} else iset{h}
  }

  lemma PassedByStays(s: Server, t: Server, h: Handle)
    requires Inv(s) && Later(s, t) && PassedBy(s, h)
    ensures PassedBy(t, h)
  {
    assert BoxInv(s, h.box);
  }

  lemma ProgressWidens(s: Server, t: Server, mine: iset<Handle>, more: iset<Handle>)
    requires Progress(s, t, mine) && mine <= more
    ensures Progress(s, t, more)
  {
    hide Inv, Later, Touched;
  }

  /** Quiet, then touching one message: touching that one message. */
  lemma QuietThen(s: Server, t: Server, u: Server, h: Handle)
    requires Progress(s, t, iset{}) && Progress(t, u, Only(t, h))
    ensures Progress(s, u, Only(s, h))
  {
    assert Only(t, h) <= Only(s, h) by { if PassedBy(s, h) { PassedByStays(s, t, h); } }
    ProgressWidens(s, t, iset{}, Only(s, h));
    ProgressWidens(t, u, Only(t, h), Only(s, h));
    hide Progress, Only;
    ProgressTrans(s, t, u, Only(s, h));
  }

  lemma ThenQuiet(s: Server, t: Server, u: Server, h: Handle)
    requires Progress(s, t, Only(s, h)) && Progress(t, u, iset{})
    ensures Progress(s, u, Only(s, h))
  {
    ProgressWidens(t, u, iset{}, Only(s, h));
    hide Progress, Only;
    ProgressTrans(s, t, u, Only(s, h));
  }

  lemma RemoveTakes(s: Server, box: string, doomed: set<nat>)
    requires box in s.boxes
    ensures var t := Remove(s, box, doomed, Ours);
            && t.boxes.Keys == s.boxes.Keys && t.boxes[box].validity == s.boxes[box].validity
            && t.flagged == s.flagged
            && forall h :: Touched(s, t, h) ==> h.uid in doomed && h == Handle(box, s.boxes[box].validity, h.uid)
  {
  }

  lemma RemoveTouches(s: Server, box: string, uid: nat, doomed: set<nat>)
    requires Inv(s) && box in s.boxes && doomed <= {uid}
    ensures var t := Remove(s, box, doomed, Ours);
            Progress(s, t, Only(s, Handle(box, s.boxes[box].validity, uid)))
            && t.boxes.Keys == s.boxes.Keys && t.boxes[box].validity == s.boxes[box].validity
  {
    RemoveInv(s, box, doomed, Ours);
    RemoveTakes(s, box, doomed);
    hide Inv, Later, Touched, Remove;
  }

  /** Writing down what we flagged changes nothing else. */
  lemma NoteFlagged(s: Server, f: Server, more: set<Handle>)
    requires Inv(f) && Later(s, f) && f.flagged == s.flagged
    ensures Inv(f.(flagged := s.flagged + more)) && Later(s, f.(flagged := s.flagged + more))
  {
    var t := f.(flagged := s.flagged + more);
    forall b | b in t.boxes ensures BoxInv(t, b) { assert BoxInv(f, b); }
  }

  lemma FlagTouches(s: Server, box: string, uid: nat)
    requires Inv(s) && box in s.boxes
    ensures var h := Handle(box, s.boxes[box].validity, uid);
            var t := Flag(s, box, uid, true).(flagged := s.flagged + {h});
            Progress(s, t, Only(s, h)) && box in t.boxes && t.boxes[box].validity == s.boxes[box].validity
  {
    hide Inv, Later;
    FlagInv(s, box, uid, true);
    NoteFlagged(s, Flag(s, box, uid, true), {Handle(box, s.boxes[box].validity, uid)});
  }

  lemma MoveTouches(o: Oracle, w: World, sel: Selection, uid: nat, bin: string)
    requires Inv(w.server)
    ensures Progress(w.server, Move(o, w, sel, uid, bin).0.server, Only(w.server, Handle(sel.box, sel.validity, uid)))
  {
    hide Arrive, AddMessage, Remove, Inv, Later, Only;
    ArriveProgress(o, w, iset{});
    var s, h := Arrive(o, w), Handle(sel.box, sel.validity, uid);
    var t := Move(o, w, sel, uid, bin).0.server;
    if t == s {
      ProgressWidens(w.server, s, iset{}, Only(w.server, h));
    } else {
      var m := s.boxes[sel.box].msgs[uid];
      var r := Remove(s, sel.box, {uid}, Ours);
      RemoveTouches(s, sel.box, uid, {uid});
      AddMessageProgress(r, bin, m.raw, m.flags, m.deleted);
      ThenQuiet(s, r, t, h);
      QuietThen(w.server, s, t, h);
    }
  }

  /** With UIDPLUS the expunge is of the named UID alone. */
  lemma DeleteTouches(o: Oracle, w: World, sel: Selection, uid: nat)
    requires Inv(w.server) && w.server.uidplus
    ensures Progress(w.server, Delete(o, w, sel, uid).0.server, Only(w.server, Handle(sel.box, sel.validity, uid)))
  {
    hide Arrive, Flag, Remove, Inv, Only, FlaggedUids;
    ArriveProgress(o, w, iset{});
    var s, h := Arrive(o, w), Handle(sel.box, sel.validity, uid);
    assert s.uidplus;
    hide Later;
    var t := Delete(o, w, sel, uid).0.server;
    if t == s {
      ProgressWidens(w.server, s, iset{}, Only(w.server, h));
    } else {
      var stored := Flag(s, sel.box, uid, true).(flagged := s.flagged + {h});
      FlagTouches(s, sel.box, uid);
      if t != stored {
        var doomed := {uid} * FlaggedUids(stored.boxes[sel.box]);
        assert t == Remove(stored, sel.box, doomed, Ours);
        RemoveTouches(stored, sel.box, uid, doomed);
        FlagThenRemove(s, stored, t, h);
      }
      QuietThen(w.server, s, t, h);
    }
  }

  lemma FlagThenRemove(s: Server, t: Server, u: Server, h: Handle)
    requires Progress(s, t, Only(s, h)) && Progress(t, u, Only(t, h))
    ensures Progress(s, u, Only(s, h))
  {
    assert Only(t, h) <= Only(s, h) by { if PassedBy(s, h) { PassedByStays(s, t, h); } }
    ProgressWidens(t, u, Only(t, h), Only(s, h));
    hide Progress, Only;
    ProgressTrans(s, t, u, Only(s, h));
  }

  // ----- the connection within one operation -----

  /** The connection taken as `conn` still has `sel` selected, or has been replaced since. */
  predicate Holds(w: World, conn: nat, sel: Selection) {
    w.conn >= conn && (w.conn == conn ==> w.open == Some(sel))
  }

  lemma OpenHolds(o: Oracle, w: World, conn: nat, sel: Selection)
    requires Holds(w, conn, sel)
    ensures Holds(Open(o, w, sel.box).0, conn, sel)
  {
    hide Arrive;
  }

  lemma UidExistsHolds(o: Oracle, w: World, conn: nat, uid: nat, sel: Selection)
    requires Holds(w, conn, sel)
    ensures Holds(UidExists(o, w, sel.box, uid).0, conn, sel)
  {
    OpenHolds(o, w, conn, sel);
    hide Arrive, Open;
  }

  lemma FindBinHolds(o: Oracle, w: World, conn: nat, sel: Selection)
    requires Holds(w, conn, sel)
    ensures Holds(FindBin(o, w).0, conn, sel)
  {
    hide Arrive;
  }

  /** A lock on the connection taken at the start answers the selection it has had since. */
  lemma LockOnAnswers(o: Oracle, w: World, conn: nat, sel: Selection)
    requires Holds(w, conn, sel)
    ensures var (w1, r) := LockOn(o, w, conn, sel.box); r.Ok? ==> r.value == sel
  {
    hide Arrive;
  }

  /** The selection a version was read from. */
  lemma VersionIsSelected(o: Oracle, w: World, box: string) returns (sel: Selection)
    ensures var (w1, version) := UidValidityOf(o, w, box);
            version.Ok? ==>
              sel.box == box && sel.validity == version.value && w1.open == Some(sel) && Holds(w1, w.conn, sel)
  {
    hide Arrive;
    var (w1, version) := UidValidityOf(o, w, box);
    sel := if version.Ok? then Open(o, w, box).1.value else Selection("", 0, 0, 0);
  }

  // ----- the removal as a whole -----

  lemma VerifyGoneKeeps(o: Oracle, w: World, box: string, uid: nat, kind: Removal)
    requires Inv(w.server)
    ensures var (w', r) := VerifyGone(o, w, box, uid, kind);
            && Progress(w.server, w'.server, iset{})
            && (r.Ok? ==> r.value == kind && box in w'.server.boxes && uid !in w'.server.boxes[box].msgs)
  {
    UidExistsKeeps(o, w, box, uid);
    NotThere(o, w, box, uid);
    hide UidExists, Inv, Later, Touched;
  }

  lemma NotThere(o: Oracle, w: World, box: string, uid: nat)
    ensures var (w', r) := UidExists(o, w, box, uid);
            r == Ok(false) ==> box in w'.server.boxes && uid !in w'.server.boxes[box].msgs
  {
    hide Arrive;
  }

  lemma MoveToBinTouches(o: Oracle, w: World, conn: nat, sel: Selection, uid: nat, bin: string)
    requires Inv(w.server) && Holds(w, conn, sel)
    ensures var (w', r) := MoveToBin(o, w, conn, sel.box, uid, bin);
            && Progress(w.server, w'.server, Only(w.server, Handle(sel.box, sel.validity, uid)))
            && (r.Ok? ==> r.value == Binned && sel.box in w'.server.boxes && uid !in w'.server.boxes[sel.box].msgs)
  {
    hide LockOn, Move, VerifyGone, Progress, Inv, Only;
    var h := Handle(sel.box, sel.validity, uid);
    var (w1, lock) := LockOn(o, w, conn, sel.box);
    LockOnKeeps(o, w, conn, sel.box);
    LockOnAnswers(o, w, conn, sel);
    QuietIs(w.server, w1.server);
    ProgressWidens(w.server, w1.server, iset{}, Only(w.server, h));
    if lock.Ok? {
      var (w2, moved) := Move(o, w1, sel, uid, bin);
      MoveTouches(o, w1, sel, uid, bin);
      QuietThen(w.server, w1.server, w2.server, h);
      QuietIs(w.server, w2.server);
      VerifyGoneKeeps(o, w2, sel.box, uid, Binned);
      ThenQuiet(w.server, w2.server, VerifyGone(o, w2, sel.box, uid, Binned).0.server, h);
    }
  }

  lemma QuietIs(s: Server, t: Server)
    ensures forall mine :: Progress(s, t, mine) ==> Inv(s) && Inv(t) && Later(s, t) && s.uidplus == t.uidplus
  {
    hide Inv, Touched;
  }

  lemma ExpungeOneTouches(o: Oracle, w: World, conn: nat, sel: Selection, uid: nat)
    requires Inv(w.server) && Holds(w, conn, sel)
    ensures var (w', r) := ExpungeOne(o, w, conn, sel.box, uid);
            && Progress(w.server, w'.server, Only(w.server, Handle(sel.box, sel.validity, uid)))
            && (r.Ok? ==> r.value == Deleted && sel.box in w'.server.boxes && uid !in w'.server.boxes[sel.box].msgs)
            && (!w.server.uidplus ==> r.Err? && w' == w)
  {
    hide LockOn, Delete, VerifyGone, Progress, Inv, Only;
    var h := Handle(sel.box, sel.validity, uid);
    var (w1, lock) := LockOn(o, w, conn, sel.box);
    LockOnKeeps(o, w, conn, sel.box);
    LockOnAnswers(o, w, conn, sel);
    QuietIs(w.server, w1.server);
    ProgressWidens(w.server, w1.server, iset{}, Only(w.server, h));
    ProgressRefl(w.server, Only(w.server, h));
    if lock.Ok? && w.server.uidplus {
      var (w2, deleted) := Delete(o, w1, sel, uid);
      DeleteTouches(o, w1, sel, uid);
      QuietThen(w.server, w1.server, w2.server, h);
      QuietIs(w.server, w2.server);
      VerifyGoneKeeps(o, w2, sel.box, uid, Deleted);
      ThenQuiet(w.server, w2.server, VerifyGone(o, w2, sel.box, uid, Deleted).0.server, h);
    }
  }

  lemma FindBinKeeps(o: Oracle, w: World)
    requires Inv(w.server)
    ensures Progress(w.server, FindBin(o, w).0.server, iset{})
  {
    ArriveProgress(o, w, iset{});
    hide Arrive, Inv, Later, Touched;
  }

  lemma RemovePresentTouches(o: Oracle, w: World, conn: nat, sel: Selection, uid: nat)
    requires Inv(w.server) && Holds(w, conn, sel)
    ensures var (w', r) := RemovePresent(o, w, conn, sel.box, uid);
            && Progress(w.server, w'.server, Only(w.server, Handle(sel.box, sel.validity, uid)))
            && (r.Ok? ==> r.value != NothingToRemove && sel.box in w'.server.boxes && uid !in w'.server.boxes[sel.box].msgs)
            && (r == Ok(Deleted) ==> w.server.uidplus)
  {
    hide FindBin, MoveToBin, ExpungeOne, Inv, Progress, Only, Holds;
    var h := Handle(sel.box, sel.validity, uid);
    var (w1, bin) := FindBin(o, w);
    FindBinKeeps(o, w);
    FindBinHolds(o, w, conn, sel);
    QuietIs(w.server, w1.server);
    ProgressWidens(w.server, w1.server, iset{}, Only(w.server, h));
    if bin.Ok? {
      var (w2, r) := RemovePresent(o, w, conn, sel.box, uid);
      if bin.value.Some? && bin.value.value != "" && bin.value.value != sel.box {
        MoveToBinTouches(o, w1, conn, sel, uid, bin.value.value);
      } else {
        ExpungeOneTouches(o, w1, conn, sel, uid);
      }
      QuietThen(w.server, w1.server, w2.server, h);
    }
  }

  /**
   * Whatever other clients do before, meanwhile and between any two calls, wherever a call
   * fails and wherever the connection is lost: a removal touches at most one message, the one
   * its UID names under the UIDVALIDITY that was checked (`v`, which is the expected one if
   * one was given), and none if the mailbox was recreated before. A message already gone
   * leaves everything untouched; any answer but a refusal means the UID is gone from the
   * mailbox; and a message is expunged, rather than moved, only on a server with UIDPLUS.
   */
  lemma RemovalTouchesOnlyItsUid(o: Oracle, w: World, id: TargetId, expected: Option<nat>, box: string)
    returns (v: nat)
    requires Inv(w.server)
    ensures expected.Some? ==> v == expected.value
    ensures var (w', r) := RemoveItem(o, w, id, expected, Some(box));
            && Inv(w'.server) && Later(w.server, w'.server)
            && (forall h :: Touched(w.server, w'.server, h) ==>
                  h == Handle(box, v, h.uid) && id == Integer(h.uid) && !PassedBy(w.server, h))
            && (r == Ok(NothingToRemove) ==> forall h :: !Touched(w.server, w'.server, h))
            && (r.Ok? ==>
                id.Integer? && id.n > 0 && box in w'.server.boxes && id.n !in w'.server.boxes[box].msgs)
            && (r == Ok(Deleted) ==> w.server.uidplus)
  {
    hide UidValidityOf, UidExists, RemovePresent, Inv, Later, Touched, Attach, Holds;
    v := expected.GetOr(0);
    ProgressRefl(w.server, iset{});
    AttachKeeps(o, w);
    var w0 := Attach(o, w);
    if box == "" || id.NotInteger? || id.n <= 0 { return; }
    var uid: nat := id.n;
    var (w1, validity) := UidValidityOf(o, w0, box);
    UidValidityKeeps(o, w0, box);
    var sel := VersionIsSelected(o, w0, box);
    if validity.Err? || (expected.Some? && validity.value != expected.value) { return; }
    v := validity.value;
    var (w2, there) := UidExists(o, w1, box, uid);
    UidExistsKeeps(o, w1, box, uid);
    UidExistsHolds(o, w1, w0.conn, uid, sel);
    NotThere(o, w1, box, uid);
    ProgressTrans(w.server, w1.server, w2.server, iset{});
    QuietIs(w.server, w2.server);
    if there.Err? || !there.value { return; }
    var w3 := RemovePresent(o, w2, w0.conn, box, uid).0;
    RemovePresentTouches(o, w2, w0.conn, sel, uid);
    QuietThen(w.server, w2.server, w3.server, Handle(box, v, uid));
    assert (w3, RemovePresent(o, w2, w0.conn, box, uid).1) == RemoveItem(o, w, id, expected, Some(box));
  }

  /** Every other message is where it was, or another client took it, or its mailbox was recreated. */
  lemma OthersSurvive(s: Server, t: Server, g: Handle)
    requires Inv(s) && Inv(t) && Later(s, t) && Alive(s, g) && !Touched(s, t, g)
    ensures || (Alive(t, g) && t.boxes[g.box].msgs[g.uid].raw == s.boxes[g.box].msgs[g.uid].raw)
            || Taken(t, g, Others)
            || Renumbered(t, g)
  {
    assert BoxInv(s, g.box);
    assert g in s.named && g in t.named;
    if !Renumbered(t, g) { assert BoxInv(t, g.box); }
  }

  /** Why the capability is checked first: without UIDPLUS the same call takes every flagged message. */
  lemma BareExpungeTakesEverythingFlagged(o: Oracle, w: World, sel: Selection, uid: nat, g: Handle)
    requires Inv(w.server) && !w.server.uidplus
    requires o(w.turn) == Turn([], Works) && Selected(w.server, sel)
    requires Alive(w.server, g) && g.box == sel.box && w.server.boxes[g.box].msgs[g.uid].deleted
    ensures Touched(w.server, Delete(o, w, sel, uid).0.server, g)
  {
    assert Arrive(o, w) == w.server;
    assert BoxInv(w.server, g.box);
    var stored := Flag(w.server, sel.box, uid, true);
    assert g.uid in FlaggedUids(stored.boxes[sel.box]);
  }

  // ----- what upsert hands out -----

  lemma FirstIsLowest(m: Mailbox, wanted: string)
    requires forall u :: u in m.msgs ==> u < m.uidNext
    ensures var r := FirstWithKey(Listing(m.msgs, m.uidNext), wanted);
            && (r.Some? ==> r.value in m.msgs && HasKey(m.msgs[r.value].raw, wanted))
            && forall u :: u in m.msgs && (r.None? || u < r.value) ==> !HasKey(m.msgs[u].raw, wanted)
  {
    hide HasKey, Listing, FirstWithKey;
    var listing := Listing(m.msgs, m.uidNext);
    var r := FirstWithKey(listing, wanted);
    forall u | u in m.msgs && (r.None? || u < r.value) ensures !HasKey(m.msgs[u].raw, wanted) {
      assert (u, m.msgs[u]) in listing;
      var j :| 0 <= j < |listing| && listing[j] == (u, m.msgs[u]);
      if r.Some? {
        var i :| 0 <= i < |listing| && listing[i].0 == r.value && forall k :: 0 <= k < i ==> !HasKey(listing[k].1.raw, wanted);
        assert j < i;
      }
    }
  }

  /**
   * A completed lookup is right both ways about the mailbox it scanned, and of several messages
   * answers the one with the lowest UID.
   */
  lemma FindAnswers(o: Oracle, w: World, box: string, key: string)
    requires Inv(w.server)
    ensures var (w', r) := Find(o, w, box, key);
            r.Ok? ==>
              && box in w'.server.boxes
              && (r.value.Some? ==> r.value.value in w'.server.boxes[box].msgs
                                    && HasKey(w'.server.boxes[box].msgs[r.value.value].raw, NormaliseKey(key))
                                    && forall u :: u in w'.server.boxes[box].msgs && u < r.value.value ==>
                                         !HasKey(w'.server.boxes[box].msgs[u].raw, NormaliseKey(key)))
              && (r.value.None? ==> forall u :: u in w'.server.boxes[box].msgs ==>
                                    !HasKey(w'.server.boxes[box].msgs[u].raw, NormaliseKey(key)))
  {
    FindKeeps(o, w, box, key);
    var (w', r) := Find(o, w, box, key);
    if r.Ok? {
      var m := w'.server.boxes[box];
      var listing := Listing(m.msgs, m.uidNext);
      assert r.value == FirstWithKey(listing, NormaliseKey(key));
      assert BoxInv(w'.server, box);
      FirstIsLowest(m, NormaliseKey(key));
    }
  }

  /**
   * The UID a lookup answers, under the UIDVALIDITY of the mailbox it scanned, was issued to a message
   * with that key.
   */
  lemma FindNames(o: Oracle, w: World, box: string, key: string)
    requires Inv(w.server)
    ensures var (w', r) := Find(o, w, box, key);
            r.Ok? && r.value.Some? ==> Names(w'.server, box, r.value.value, NormaliseKey(key))
  {
    FindKeeps(o, w, box, key);
    FindAnswers(o, w, box, key);
    var (w', r) := Find(o, w, box, key);
    if r.Ok? { assert BoxInv(w'.server, box); }
    hide Find;
  }

  /** `uid` under the current UIDVALIDITY of `box` was issued to a message with this key. */
  predicate Names(s: Server, box: string, uid: nat, key: string) {
    box in s.boxes
    && Handle(box, s.boxes[box].validity, uid) in s.named
    && HasKey(s.named[Handle(box, s.boxes[box].validity, uid)], key)
  }

  /** `m` is the message `raw`, or one with the id that the writer finds in `raw`. */
  predicate Means(m: Raw, raw: Raw) {
    m == raw || (ExtractMessageId(raw.headerId).Some? && HasKey(m, NormaliseKey(ExtractMessageId(raw.headerId).value)))
  }

  /** The handle means the right message for as long as the version check lets it through. */
  predicate GoodHandle(s: Server, h: Handle, raw: Raw) {
    h.box in s.boxes
    && s.boxes[h.box].validity >= h.validity
    && (s.boxes[h.box].validity == h.validity ==> h in s.named && Means(s.named[h], raw))
  }

  /** `uid` under the current UIDVALIDITY of `box` was issued to such a message. */
  predicate Stands(s: Server, box: string, uid: nat, raw: Raw) {
    box in s.boxes
    && Handle(box, s.boxes[box].validity, uid) in s.named
    && Means(s.named[Handle(box, s.boxes[box].validity, uid)], raw)
  }

  lemma NamesStands(s: Server, box: string, uid: nat, raw: Raw)
    requires ExtractMessageId(raw.headerId).Some?
    requires Names(s, box, uid, NormaliseKey(ExtractMessageId(raw.headerId).value))
    ensures Stands(s, box, uid, raw)
  {
    hide HasKey, NormaliseKey, ExtractMessageId;
  }

  lemma NamedIsGood(s: Server, t: Server, box: string, uid: nat, version: nat, raw: Raw)
    requires Inv(s) && Inv(t) && Later(s, t) && box in s.boxes && s.boxes[box].validity >= version
    requires Stands(s, box, uid, raw)
    ensures GoodHandle(t, Handle(box, version, uid), raw)
  {
    assert BoxInv(s, box);
    hide Means;
  }

  /** After a completed lookup its mailbox is selected, and is still the one that was scanned. */
  lemma FindSelects(o: Oracle, w: World, box: string, key: string)
    ensures var (w', r) := Find(o, w, box, key);
            r.Ok? ==>
              && w'.turn == w.turn + 2
              && w'.open.Some? && w'.open.value.box == box && Selected(w'.server, w'.open.value)
  {
    hide Arrive, FirstWithKey, NormaliseKey;
  }

  /** The version read with the mailbox open: the snapshot's, or after a lost connection the server's. */
  lemma VersionRead(o: Oracle, w: World, box: string)
    requires w.open.Some? && w.open.value.box == box && Selected(w.server, w.open.value)
    ensures var (w', version) := UidValidityOf(o, w, box);
            var s := Arrive(o, w);
            && w'.server == s && w'.turn == w.turn + 1
            && (version.Ok? && o(w.turn).lost ==> box in s.boxes && version.value == s.boxes[box].validity)
            && (version.Ok? && !o(w.turn).lost ==> version.value == w.server.boxes[box].validity)
  {
    assert Arrive(o, Reconnect(w)) == Arrive(o, w);
    hide Arrive;
  }

  lemma ArriveValidity(o: Oracle, w: World, box: string)
    requires Inv(w.server) && box in w.server.boxes
    ensures var s := Arrive(o, w);
            && Inv(s) && Later(w.server, s)
            && box in s.boxes && s.boxes[box].validity >= w.server.boxes[box].validity
            && (s.boxes[box].validity == w.server.boxes[box].validity <==> !Recreates(o(w.turn).env, box))
  {
    StepsInv(w.server, o(w.turn).env);
    ValidityKept(w.server, o(w.turn).env, box);
    VersionGrows(w.server, Arrive(o, w), box);
    hide Inv, Later, Recreates, Steps;
  }

  /**
   * The version read right after a lookup, from the open mailbox: it is that of the mailbox
   * scanned, unless the connection was lost in between and the mailbox recreated.
   */
  lemma VersionAfterLookup(o: Oracle, w: World, box: string)
    requires Inv(w.server) && w.open.Some? && w.open.value.box == box && Selected(w.server, w.open.value)
    ensures var (w', version) := UidValidityOf(o, w, box);
            && Inv(w'.server) && Later(w.server, w'.server) && w'.turn == w.turn + 1
            && (version.Ok? ==>
                  && box in w'.server.boxes && w.server.boxes[box].validity <= version.value <= w'.server.boxes[box].validity
                  && (version.value == w.server.boxes[box].validity <==>
                        !(o(w.turn).lost && Recreates(o(w.turn).env, box))))
  {
    assert box in w.server.boxes;
    hide *;
    VersionRead(o, w, box);
    ArriveValidity(o, w, box);
  }

  lemma VersionGrows(s: Server, t: Server, box: string)
    requires Inv(s) && Later(s, t) && box in s.boxes
    ensures box in t.boxes && t.boxes[box].validity >= s.boxes[box].validity
  {
    assert BoxInv(s, box);
  }

  /**
   * An appended message: the version was read before the APPEND, so either the handle names
   * the message or one with its id, or the version check will refuse it for ever.
   */
  lemma CreatedHandleIsGood(o: Oracle, w: World, box: string, raw: Raw, keywords: seq<Keyword>)
    requires Inv(w.server)
    ensures var (w', r) := Upsert(o, w, box, raw, keywords);
            r.Ok? && r.value.created ==>
              GoodHandle(w'.server, Handle(box, r.value.version, r.value.uid), raw)
  {
    hide Attach, Find, UidValidityOf, Append, Inv, Later, Touched, Names, Stands, GoodHandle;
    hide ExtractMessageId, NormaliseKey, Recreates;
    var (w', r) := Upsert(o, w, box, raw, keywords);
    if r.Ok? && r.value.created {
      AttachKeeps(o, w);
      var w0 := Attach(o, w);
      var id := ExtractMessageId(raw.headerId).value;
      var w1 := Find(o, w0, box, id).0;
      FindKeeps(o, w0, box, id);
      FindSelects(o, w0, box, id);
      var (w2, version) := UidValidityOf(o, w1, box);
      VersionAfterLookup(o, w1, box);
      var flags := AppendFlags(keywords);
      var (w3, appended) := Append(o, w2, w0.conn, box, raw, flags);
      AppendKeeps(o, w2, w0.conn, box, raw, flags);
      VersionGrows(w2.server, w3.server, box);
      if appended.value.Some? {
        AppendNames(o, w2, w0.conn, box, raw, flags);
        LaterRefl(w3.server);
        NamedIsGood(w3.server, w3.server, box, r.value.uid, version.value, raw);
      } else {
        FindKeeps(o, w3, box, id);
        FindNames(o, w3, box, id);
        VersionGrows(w3.server, w'.server, box);
        LaterRefl(w'.server);
        NamesStands(w'.server, box, r.value.uid, raw);
        NamedIsGood(w'.server, w'.server, box, r.value.uid, version.value, raw);
      }
    }
  }

  lemma AttachKeeps(o: Oracle, w: World)
    ensures Attach(o, w).server == w.server && Attach(o, w).turn == w.turn
  {
  }

  lemma AppendNames(o: Oracle, w: World, conn: nat, box: string, raw: Raw, flags: seq<string>)
    requires Inv(w.server)
    ensures var (w', r) := Append(o, w, conn, box, raw, flags);
            r.Ok? && r.value.Some? ==> Stands(w'.server, box, r.value.value, raw)
  {
    hide HasKey, NormaliseKey, ExtractMessageId;
  }

  /** The version of an adopted message is read anew, and after a recreation: the one way to a wrong pair. */
  predicate Misread(o: Oracle, w: World, box: string) {
    o(w.turn + 2).lost && Recreates(o(w.turn + 2).env, box)
  }

  /**
   * A message found already present: its UID comes from the lookup and the UIDVALIDITY from
   * the call after it, which reads the open mailbox. The pair names the message that was
   * found exactly unless the connection was lost between the two, so that the mailbox had to
   * be selected anew, and the mailbox was recreated in the same gap.
   */
  lemma AdoptedHandleExactly(o: Oracle, w: World, box: string, raw: Raw, keywords: seq<Keyword>)
    requires Inv(w.server)
    ensures var (w', r) := Upsert(o, w, box, raw, keywords);
            r.Ok? && !r.value.created ==>
              var id := ExtractMessageId(raw.headerId).value;
              var found := Find(o, Attach(o, w), box, id).0.server;
              && Names(found, box, r.value.uid, NormaliseKey(id))
              && (r.value.version == found.boxes[box].validity <==> !Misread(o, w, box))
              && (!Misread(o, w, box) ==> GoodHandle(w'.server, Handle(box, r.value.version, r.value.uid), raw))
  {
    hide Upsert, Attach, Find, UidValidityOf, Inv, Later, Names, Stands, GoodHandle, Recreates, ExtractMessageId, NormaliseKey;
    var (w', r) := Upsert(o, w, box, raw, keywords);
    if r.Ok? && !r.value.created {
      AdoptedShape(o, w, box, raw, keywords);
      AttachKeeps(o, w);
      var w0 := Attach(o, w);
      var id := ExtractMessageId(raw.headerId).value;
      var w1 := Find(o, w0, box, id).0;
      FindKeeps(o, w0, box, id);
      FindNames(o, w0, box, id);
      FindSelects(o, w0, box, id);
      VersionAfterLookup(o, w1, box);
      if !Misread(o, w, box) {
        NamesStands(w1.server, box, r.value.uid, raw);
        NamedIsGood(w1.server, w'.server, box, r.value.uid, r.value.version, raw);
      }
    }
  }

  /** The two calls behind an adopted handle. */
  lemma AdoptedShape(o: Oracle, w: World, box: string, raw: Raw, keywords: seq<Keyword>)
    requires Upsert(o, w, box, raw, keywords).1.Ok? && !Upsert(o, w, box, raw, keywords).1.value.created
    ensures ExtractMessageId(raw.headerId).Some?
    ensures var (w', r) := Upsert(o, w, box, raw, keywords);
            var (w1, existing) := Find(o, Attach(o, w), box, ExtractMessageId(raw.headerId).value);
            && existing == Ok(Some(r.value.uid)) && (w', Ok(r.value.version)) == UidValidityOf(o, w1, box)
  {
    hide Attach, Find, UidValidityOf, Append, AppendFlags, ExtractMessageId;
  }

  /** The calls behind the handle of an appended message. */
  lemma CreatedShape(o: Oracle, w: World, box: string, raw: Raw, keywords: seq<Keyword>)
    requires Upsert(o, w, box, raw, keywords).1.Ok? && Upsert(o, w, box, raw, keywords).1.value.created
    ensures ExtractMessageId(raw.headerId).Some?
    ensures var (w', r) := Upsert(o, w, box, raw, keywords);
            var w0, id := Attach(o, w), ExtractMessageId(raw.headerId).value;
            var w1 := Find(o, w0, box, id).0;
            var (w2, version) := UidValidityOf(o, w1, box);
            var (w3, appended) := Append(o, w2, w0.conn, box, raw, AppendFlags(keywords));
            && Find(o, w0, box, id).1.Ok? && Find(o, w0, box, id).1.value.None?
            && version == Ok(r.value.version) && appended.Ok?
            && (appended.value.Some? ==> w' == w3 && appended.value.value == r.value.uid)
            && (appended.value.None? ==>
                  var (w4, rescanned) := Find(o, w3, box, id);
                  w' == w4 && rescanned.Ok? && rescanned.value.Some? && rescanned.value.value == r.value.uid)
  {
    hide Attach, Find, UidValidityOf, Append, AppendFlags, ExtractMessageId;
    var w0, id := Attach(o, w), ExtractMessageId(raw.headerId).value;
    var w2 := UidValidityOf(o, Find(o, w0, box, id).0, box).0;
    var (w3, appended) := Append(o, w2, w0.conn, box, raw, AppendFlags(keywords));
    assert appended.Ok?;
    if appended.value.None? {
      var (w4, rescanned) := Find(o, w3, box, id);
      assert rescanned.Ok? && rescanned.value.Some?;
      assert Upsert(o, w, box, raw, keywords).0 == w4;
    }
  }

  /** One mailbox holding one message, the server of the race below. */
  function OneMessage(raw: Raw): Server {
    Server(["INBOX"], map["INBOX" := Mailbox(1, 2, map[1 := Message(raw, [], false)], [])], 2, true,
           map[Handle("INBOX", 1, 1) := raw], map[], {})
  }

  /** Before the third call the mailbox is recreated and `other` is delivered into it; the connection may be lost. */
  function RaceTurn(t: nat, other: Raw, lost: bool): Turn {
    if t == 2 then Turn([Recreate("INBOX", []), Deliver("INBOX", other, [], false)], Works, lost) else Turn([], Works)
  }

  /**
   * The exception is real: with the connection lost and the mailbox recreated between lookup
   * and version read, the adopted pair passes the version check and the removal takes
   * somebody else's mail.
   */
  lemma AdoptionRace(raw: Raw, other: Raw) returns (o: Oracle, w: World)
    requires Faithful(raw) && ExtractMessageId(raw.headerId).Some?
    requires !HasKey(other, NormaliseKey(ExtractMessageId(raw.headerId).value))
    ensures Inv(w.server) && Misread(o, w, "INBOX")
    ensures var (w1, u) := Upsert(o, w, "INBOX", raw, []);
            && u.Ok? && !u.value.created
            && var (w2, r) := RemoveItem(o, w1, Integer(u.value.uid), Some(u.value.version), Some("INBOX"));
               r == Ok(Deleted)
               && Touched(w1.server, w2.server, Handle("INBOX", u.value.version, u.value.uid))
               && Handle("INBOX", u.value.version, u.value.uid) in w1.server.named
               && w1.server.named[Handle("INBOX", u.value.version, u.value.uid)] == other
  {
    o := (t: nat) => RaceTurn(t, other, true);
    w := World(OneMessage(raw), 0);
    assert Misread(o, w, "INBOX");
    assert Attach(o, w) == w;
    hide Attach, Find, UidValidityOf, Arrive, Inv, Steps, RemoveItem, NormaliseKey, ExtractMessageId, HasKey, Touched;
    hide OneMessage, RaceState, AfterRace, Recreates;
    OneMessageInv(raw);
    RaceLookup(o, raw);
    var s1 := RaceState(raw, other);
    RaceRecreated(o, raw, other);
    RaceStateFacts(raw, other);
    RaceRemoval(o, s1, other);
    assert Upsert(o, w, "INBOX", raw, []) == (Reopened(s1, 3), Ok(UpsertResult(1, false, 2)));
  }

  /** The selection before the race and the one after it. */
  function Before(): Selection { Selection("INBOX", 1, 2, 1) }

  function Reopened(s: Server, t: nat): World {
    World(s, t, Some(Selection("INBOX", 2, 2, 1)), 1)
  }

  lemma RaceStateFacts(raw: Raw, other: Raw)
    ensures var s := RaceState(raw, other);
            AfterRace(s, other) && Handle("INBOX", 2, 1) in s.named && s.named[Handle("INBOX", 2, 1)] == other
  {
  }

  function RaceState(raw: Raw, other: Raw): Server {
    AddMessage(Fresh(OneMessage(raw), "INBOX", []), "INBOX", other, [], false)
  }

  lemma OneMessageInv(raw: Raw)
    ensures Inv(OneMessage(raw))
  {
    assert BoxInv(OneMessage(raw), "INBOX");
  }

  /** A call that works while nobody else acts finds the server as it was. */
  lemma Undisturbed(o: Oracle, w: World)
    requires o(w.turn) == Turn([], Works)
    ensures Arrive(o, w) == w.server
  {
  }

  lemma RaceLookup(o: Oracle, raw: Raw)
    requires o(0) == o(1) == Turn([], Works)
    requires Faithful(raw) && ExtractMessageId(raw.headerId).Some?
    ensures Find(o, World(OneMessage(raw), 0), "INBOX", ExtractMessageId(raw.headerId).value)
         == (World(OneMessage(raw), 2, Some(Before())), Ok(Some(1)))
  {
    hide NormaliseKey, ExtractMessageId, Steps, Arrive;
    var s0 := OneMessage(raw);
    var w0, w1 := World(s0, 0), World(s0, 1, Some(Before()));
    Undisturbed(o, w0);
    Undisturbed(o, w1);
    assert Open(o, w0, "INBOX") == (w1, Ok(Before()));
    var m := Message(raw, [], false);
    var msgs := s0.boxes["INBOX"].msgs;
    assert Listing(msgs, 1) == [] by { assert Listing(msgs, 0) == []; }
    assert Listing(msgs, 2) == [(1, m)];
    assert FetchAll(o, w1, Before()) == (World(s0, 2, Some(Before())), Ok([(1, m)]));
    hide Open, FetchAll, OneMessage;
    assert FirstWithKey([(1, m)], NormaliseKey(ExtractMessageId(raw.headerId).value)) == Some(1);
  }

  lemma RaceArrives(o: Oracle, raw: Raw, other: Raw, lost: bool, w: World)
    requires o(2) == RaceTurn(2, other, lost) && w.server == OneMessage(raw) && w.turn == 2
    ensures Arrive(o, w) == RaceState(raw, other)
  {
    var s0 := OneMessage(raw);
    var env := RaceTurn(2, other, lost).env;
    assert env[1..] == [Deliver("INBOX", other, [], false)];
    assert env[1..][1..] == [];
    var s1 := Step(s0, env[0]);
    assert Steps(s1, env[1..]) == Steps(Step(s1, env[1..][0]), []);
  }

  lemma RaceRecreated(o: Oracle, raw: Raw, other: Raw)
    requires o(2) == RaceTurn(2, other, true)
    ensures UidValidityOf(o, World(OneMessage(raw), 2, Some(Before())), "INBOX") == (Reopened(RaceState(raw, other), 3), Ok(2))
  {
    var w := World(OneMessage(raw), 2, Some(Before()));
    RaceArrives(o, raw, other, true, w);
    RaceArrives(o, raw, other, true, Reconnect(w));
    RaceStateFacts(raw, other);
    hide Arrive, RaceState, OneMessage;
  }

  predicate AfterRace(s: Server, other: Raw) {
    && s.names == ["INBOX"] && s.uidplus && s.taken == map[]
    && s.boxes == map["INBOX" := Mailbox(2, 2, map[1 := Message(other, [], false)], [])]
  }

  lemma RaceRemoval(o: Oracle, s: Server, other: Raw)
    requires forall t: nat :: t >= 3 ==> o(t) == Turn([], Works)
    requires AfterRace(s, other)
    ensures var (w2, r) := RemoveItem(o, Reopened(s, 3), Integer(1), Some(2), Some("INBOX"));
            r == Ok(Deleted) && Touched(s, w2.server, Handle("INBOX", 2, 1))
  {
    assert Attach(o, Reopened(s, 3)) == Reopened(s, 3);
    hide Open, UidValidityOf, UidExists, FindBin, Delete, Touched, ExpungeOne, AfterRace, Attach;
    RaceChecks(o, s, other);
    RaceExpunge(o, s, other);
  }

  lemma RaceOpens(o: Oracle, s: Server, t: nat)
    requires o(t) == Turn([], Works)
    ensures Open(o, Reopened(s, t), "INBOX") == (Reopened(s, t + 1), Ok(Selection("INBOX", 2, 2, 1)))
    ensures LockOn(o, Reopened(s, t), 1, "INBOX") == (Reopened(s, t + 1), Ok(Selection("INBOX", 2, 2, 1)))
  {
    Undisturbed(o, Reopened(s, t));
    hide Arrive;
  }

  lemma RaceChecks(o: Oracle, s: Server, other: Raw)
    requires forall t: nat :: t >= 3 ==> o(t) == Turn([], Works)
    requires AfterRace(s, other)
    ensures UidValidityOf(o, Reopened(s, 3), "INBOX") == (Reopened(s, 4), Ok(2))
    ensures UidExists(o, Reopened(s, 4), "INBOX", 1) == (Reopened(s, 6), Ok(true))
    ensures FindBin(o, Reopened(s, 6)) == (Reopened(s, 7), Ok(None))
  {
    RaceOpens(o, s, 3);
    RaceOpens(o, s, 4);
    Undisturbed(o, Reopened(s, 5));
    RaceList(o, s);
    NoTrash();
    hide Open, Arrive, ListBoxes, FirstTrash;
  }

  lemma RaceExpunge(o: Oracle, s: Server, other: Raw)
    requires forall t: nat :: t >= 3 ==> o(t) == Turn([], Works)
    requires AfterRace(s, other)
    ensures var (w2, r) := ExpungeOne(o, Reopened(s, 7), 1, "INBOX", 1);
            r == Ok(Deleted) && Touched(s, w2.server, Handle("INBOX", 2, 1))
  {
    RaceOpens(o, s, 7);
    assert s.uidplus;
    RaceDelete(o, s, other);
    hide LockOn, Delete, UidExists, Touched, AfterRace;
  }

  lemma NoTrash()
    ensures FirstTrash([("INBOX", [])]) == None
  {
    var listed: seq<(string, seq<string>)> := [("INBOX", [])];
    assert !IsTrash([]) && listed[1..] == [];
    assert FirstTrash(listed) == FirstTrash(listed[1..]);
  }

  lemma RaceList(o: Oracle, s: Server)
    requires o(6) == Turn([], Works) && s.names == ["INBOX"] && "INBOX" in s.boxes && s.boxes["INBOX"].attributes == []
    ensures ListBoxes(o, Reopened(s, 6)) == (Reopened(s, 7), Ok([("INBOX", [])]))
  {
    Undisturbed(o, Reopened(s, 6));
    hide Arrive;
    assert ListBoxes(o, Reopened(s, 6)).1.value == [("INBOX", [])];
  }

  lemma RaceDelete(o: Oracle, s: Server, other: Raw)
    requires forall t: nat :: t >= 3 ==> o(t) == Turn([], Works)
    requires AfterRace(s, other)
    ensures var (w9, r) := Delete(o, Reopened(s, 8), Selection("INBOX", 2, 2, 1), 1);
            && r == Ok(true) && w9 == Reopened(w9.server, 9)
            && Touched(s, w9.server, Handle("INBOX", 2, 1))
            && UidExists(o, w9, "INBOX", 1) == (Reopened(w9.server, 11), Ok(false))
  {
    hide Steps, Arrive;
    Undisturbed(o, Reopened(s, 8));
    var sel := Selection("INBOX", 2, 2, 1);
    var stored := Flag(s, "INBOX", 1, true).(flagged := s.flagged + {Handle("INBOX", 2, 1)});
    assert FlaggedUids(stored.boxes["INBOX"]) == {1};
    var t := Remove(stored, "INBOX", {1}, Ours);
    assert {1} * {1} == {1};
    assert Delete(o, Reopened(s, 8), sel, 1) == (Reopened(t, 9), Ok(true));
    assert t.boxes["INBOX"].validity == 2 && 1 !in t.boxes["INBOX"].msgs && Taken(t, Handle("INBOX", 2, 1), Ours);
    hide Delete, Remove, Flag, FlaggedUids;
    RaceOpens(o, t, 9);
    Undisturbed(o, Reopened(t, 10));
    hide Open;
  }

  // ----- whole runs -----

  /** Any use of the connector, or a stretch in which only other clients act. */
  datatype Op =
    | DoUpsert(box: string, raw: Raw, keywords: seq<Keyword>)
    | DoRemove(id: TargetId, expected: Option<nat>, collection: string)
    | DoFind(box: string, key: string)
    | DoList(mailboxId: Option<string>)
    | Disconnect
    | Elsewhere(env: seq<EnvStep>)

  function Do(o: Oracle, w: World, op: Op): World {
    match op
    case DoUpsert(box, raw, keywords) => Upsert(o, w, box, raw, keywords).0
    case DoRemove(id, expected, collection) => RemoveItem(o, w, id, expected, Some(collection)).0
    case DoFind(box, key) => Find(o, w, box, key).0
    case DoList(mailboxId) => ListEntries(o, w, mailboxId).0
    case Disconnect => Reconnect(w)
    case Elsewhere(env) => w.(server := Steps(w.server, env))
  }

  lemma DoKeeps(o: Oracle, w: World, op: Op)
    requires Inv(w.server)
    ensures Inv(Do(o, w, op).server) && Later(w.server, Do(o, w, op).server)
  {
    hide Upsert, RemoveItem, Find, ListEntries, Inv, Later;
    match op
    case DoUpsert(box, raw, keywords) => UpsertKeeps(o, w, box, raw, keywords);
    case DoRemove(id, expected, collection) => var _ := RemovalTouchesOnlyItsUid(o, w, id, expected, collection);
    case DoFind(box, key) => FindKeeps(o, w, box, key);
    case DoList(mailboxId) => ListEntriesKeeps(o, w, mailboxId);
    case Disconnect => LaterRefl(w.server);
    case Elsewhere(env) => StepsInv(w.server, env);
  }

  function Run(o: Oracle, w: World, ops: seq<Op>): World
    decreases |ops|
  {
    if ops == [] then w else Run(o, Do(o, w, ops[0]), ops[1..])
  }

  lemma {:induction false} RunKeeps(o: Oracle, w: World, ops: seq<Op>)
    requires Inv(w.server)
    ensures Inv(Run(o, w, ops).server) && Later(w.server, Run(o, w, ops).server)
    decreases |ops|
  {
    hide Do, Inv;
    if ops != [] {
      DoKeeps(o, w, ops[0]);
      RunKeeps(o, Do(o, w, ops[0]), ops[1..]);
      hide Later;
      LaterIsTransitive(w.server, Do(o, w, ops[0]).server, Run(o, w, ops).server);
    }
  }

  /**
   * Handle safety. Whatever an upsert handed out, after any run at all, and with anything at
   * all going on during the removal itself: removing by it touches at most that one message,
   * the one written or one with its id, and nothing if the mailbox has been recreated.
   * Every other message is still there, or another client took it, or its mailbox was
   * recreated. The one exception is stated by its cause, `Misread`.
   */
  lemma HandleSafety(o: Oracle, w: World, box: string, raw: Raw, keywords: seq<Keyword>, ops: seq<Op>)
    requires Inv(w.server)
    requires Upsert(o, w, box, raw, keywords).1.Ok?
    requires Upsert(o, w, box, raw, keywords).1.value.created || !Misread(o, w, box)
    ensures var (w1, u) := Upsert(o, w, box, raw, keywords);
            var h := Handle(box, u.value.version, u.value.uid);
            var w2 := Run(o, w1, ops);
            var (w3, r) := RemoveItem(o, w2, Integer(h.uid), Some(h.validity), Some(box));
            && (forall g :: Touched(w2.server, w3.server, g) ==>
                  g == h && h in w1.server.named && Means(w1.server.named[h], raw))
            && (Renumbered(w2.server, h) ==> forall g :: !Touched(w2.server, w3.server, g))
            && (forall g :: Alive(w2.server, g) && g != h ==>
                  Alive(w3.server, g) || Taken(w3.server, g, Others) || Renumbered(w3.server, g))
            && (r.Ok? ==> !Alive(w3.server, h))
  {
    hide Upsert, Inv, Later, Touched, Misread, RemoveItem, Run, ExtractMessageId, Find, Means;
    var (w1, u) := Upsert(o, w, box, raw, keywords);
    UpsertKeeps(o, w, box, raw, keywords);
    var h := Handle(box, u.value.version, u.value.uid);
    if u.value.created { CreatedHandleIsGood(o, w, box, raw, keywords); }
    else { AdoptedHandleExactly(o, w, box, raw, keywords); }
    assert GoodHandle(w1.server, h, raw);
    var w2 := Run(o, w1, ops);
    RunKeeps(o, w1, ops);
    var (w3, r) := RemoveItem(o, w2, Integer(h.uid), Some(h.validity), Some(box));
    var _ := RemovalTouchesOnlyItsUid(o, w2, Integer(h.uid), Some(h.validity), box);
    OnlyTheHandle(w1.server, w2.server, w3.server, h, raw);
  }

  /** What a removal bounded by one handle leaves alone. */
  lemma OnlyTheHandle(s1: Server, s2: Server, s3: Server, h: Handle, raw: Raw)
    requires Inv(s1) && Inv(s2) && Inv(s3) && Later(s1, s2) && Later(s2, s3) && GoodHandle(s1, h, raw)
    requires forall g :: Touched(s2, s3, g) ==> g == h && !PassedBy(s2, g)
    ensures forall g :: Touched(s2, s3, g) ==> g == h && h in s1.named && Means(s1.named[h], raw)
    ensures Renumbered(s2, h) ==> forall g :: !Touched(s2, s3, g)
    ensures forall g :: Alive(s2, g) && g != h ==> Alive(s3, g) || Taken(s3, g, Others) || Renumbered(s3, g)
  {
    VersionGrows(s1, s2, h.box);
    hide Inv, Later, Touched, Means;
    forall g | Alive(s2, g) && g != h ensures Alive(s3, g) || Taken(s3, g, Others) || Renumbered(s3, g) {
      if !Touched(s2, s3, g) { OthersSurvive(s2, s3, g); }
    }
  }
}
