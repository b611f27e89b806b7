/**
 * What a removal does with a message that is there: into the bin if the account has one
 * elsewhere, and only otherwise expunged.
 */
module RemovalKind {
  import opened Outcomes
  import opened ImapServer
  import opened MailConventions
  import opened MailTarget
  import opened HandleSafety
  import opened RetrySafety

  /** Mailbox `bin` is the first on the server's list whose attributes name the trash before any other role. */
  predicate IsBin(s: Server, bin: string) {
    exists k :: 0 <= k < |s.names| && s.names[k] == bin && BinAt(s, k) && forall j :: 0 <= j < k ==> !BinAt(s, j)
  }

  predicate BinAt(s: Server, k: nat)
    requires k < |s.names|
  {
    s.names[k] in s.boxes && FirstRoleIsTrash(s.boxes[s.names[k]].attributes)
  }

  /** There is a bin, and it is not the mailbox itself. */
  ghost predicate HasBinFor(s: Server, box: string) {
    exists bin: string :: IsBin(s, bin) && bin != "" && bin != box
  }

  lemma {:induction false} FirstTrashAt(listed: seq<(string, seq<string>)>) returns (k: nat)
    ensures FirstTrash(listed).None? ==> forall j :: 0 <= j < |listed| ==> !FirstRoleIsTrash(listed[j].1)
    ensures FirstTrash(listed).Some? ==>
              && k < |listed| && listed[k].0 == FirstTrash(listed).value && FirstRoleIsTrash(listed[k].1)
              && forall j :: 0 <= j < k ==> !FirstRoleIsTrash(listed[j].1)
  {
    hide IsTrash, FirstRoleIsTrash;
    k := 0;
    if listed != [] {
      TrashExactly(listed[0].1);
      if !IsTrash(listed[0].1) {
        var rest := FirstTrashAt(listed[1..]);
        k := rest + 1;
        assert forall j :: 1 <= j < |listed| ==> listed[j] == listed[1..][j - 1];
      }
    }
  }

  /** What a completed search for the bin answers: the bin of the server as it is then, if it has one. */
  lemma BinFound(o: Oracle, w: World)
    ensures var (w', r) := FindBin(o, w);
            && w'.server == Arrive(o, w) && w'.turn == w.turn + 1
            && (r.Ok? ==>
                  && (r.value.Some? ==> IsBin(w'.server, r.value.value))
                  && (r.value.None? ==> forall bin: string :: !IsBin(w'.server, bin)))
  {
    var (w', r) := FindBin(o, w);
    var listed := ListBoxes(o, w).1;
    hide Arrive, FirstTrash, FirstRoleIsTrash;
    if r.Ok? {
      var s := w'.server;
      var k := FirstTrashAt(listed.value);
      forall j | 0 <= j < |s.names| ensures BinAt(s, j) <==> FirstRoleIsTrash(listed.value[j].1) {
        if s.names[j] !in s.boxes { NoAttributes(); }
      }
      if r.value.Some? { assert s.names[k] == r.value.value && BinAt(s, k); }
    }
  }

  lemma NoAttributes()
    ensures !FirstRoleIsTrash([])
  {
  }

  /** A server has one bin at most. */
  lemma OneBin(s: Server, a: string, b: string)
    requires IsBin(s, a) && IsBin(s, b)
    ensures a == b
  {
    hide FirstRoleIsTrash;
    var i :| 0 <= i < |s.names| && s.names[i] == a && BinAt(s, i) && forall j :: 0 <= j < i ==> !BinAt(s, j);
    var k :| 0 <= k < |s.names| && s.names[k] == b && BinAt(s, k) && forall j :: 0 <= j < k ==> !BinAt(s, j);
  }

  // ----- whatever happens -----

  lemma VersionTurn(o: Oracle, w: World, box: string)
    ensures var w' := UidValidityOf(o, w, box).0; w'.server == Arrive(o, w) && w'.turn == w.turn + 1
  {
    OpenArrives(o, w, box);
    hide Arrive, Open;
  }

  lemma ExistsTurns(o: Oracle, w: World, box: string, uid: nat)
    ensures var (w', r) := UidExists(o, w, box, uid);
            r.Ok? ==> w'.server == Alongside(o, w.server, w.turn, w.turn + 2) && w'.turn == w.turn + 2
  {
    OpenArrives(o, w, box);
    CallAlongside(o, w);
    var w1 := Open(o, w, box).0;
    CallAlongside(o, w1);
    AlongsideJoins(o, w.server, w.turn, w1.turn, w1.turn + 1);
    hide Arrive, Open, Alongside;
  }

  lemma KindOfPresent(o: Oracle, w: World, conn: nat, box: string, uid: nat)
    ensures var r := RemovePresent(o, w, conn, box, uid).1;
            && (r.Ok? ==> r.value == if HasBinFor(Arrive(o, w), box) then Binned else Deleted)
            && (r == Ok(Deleted) ==> w.server.uidplus)
  {
    var (w1, bin) := FindBin(o, w);
    BinFound(o, w);
    assert w1.server.uidplus == w.server.uidplus by { ArriveUidplus(o, w); }
    hide Arrive, FindBin, LockOn, Move, Delete, UidExists, IsBin;
    if bin.Ok? {
      forall other: string | IsBin(w1.server, other) ensures bin.value == Some(other) {
        if bin.value.Some? { OneBin(w1.server, bin.value.value, other); }
      }
    }
  }

  lemma ArriveUidplus(o: Oracle, w: World)
    ensures Arrive(o, w).uidplus == w.server.uidplus
  {
    StepsUidplus(w.server, o(w.turn).env);
  }

  lemma {:induction false} StepsUidplus(s: Server, env: seq<EnvStep>)
    ensures Steps(s, env).uidplus == s.uidplus
    decreases |env|
  {
    if env != [] { StepsUidplus(Step(s, env[0]), env[1..]); }
  }

  /** A removal that gets as far as looking for the bin has made three calls. */
  lemma ThreeCalls(o: Oracle, w: World, box: string, uid: nat)
    ensures var w1 := UidValidityOf(o, w, box).0;
            var (w2, there) := UidExists(o, w1, box, uid);
            there.Ok? ==>
              && Arrive(o, w2) == Alongside(o, w.server, w.turn, w.turn + 4)
              && w2.server.uidplus == w.server.uidplus
  {
    hide UidValidityOf, UidExists, Alongside, Arrive;
    var w1 := UidValidityOf(o, w, box).0;
    VersionTurn(o, w, box);
    CallAlongside(o, w);
    ArriveUidplus(o, w);
    var (w2, there) := UidExists(o, w1, box, uid);
    ExistsTurns(o, w1, box, uid);
    ExistsUidplus(o, w1, box, uid);
    if there.Ok? {
      AlongsideJoins(o, w.server, w.turn, w.turn + 1, w.turn + 3);
      CallAlongside(o, w2);
      AlongsideJoins(o, w.server, w.turn, w.turn + 3, w.turn + 4);
    }
  }

  /**
   * Whatever other clients do, wherever a call fails: a removal that completes for a message that
   * was there has moved it into the bin exactly if the server, when its mailboxes were listed at the fourth call, had a
   * bin other than the mailbox itself. Only without one is it expunged, and only with UIDPLUS.
   */
  lemma BinnedExactly(o: Oracle, w: World, id: TargetId, expected: Option<nat>, box: string)
    ensures var (w', r) := RemoveItem(o, w, id, expected, Some(box));
            var listed := Alongside(o, w.server, w.turn, w.turn + 4);
            && (r == Ok(Binned) ==> HasBinFor(listed, box))
            && (r == Ok(Deleted) ==> !HasBinFor(listed, box) && w.server.uidplus)
  {
    hide UidValidityOf, UidExists, RemovePresent, Attach, HasBinFor, Alongside, Arrive;
    AttachKeeps(o, w);
    var w0 := Attach(o, w);
    if box == "" || id.NotInteger? || id.n <= 0 { return; }
    var uid: nat := id.n;
    ThreeCalls(o, w0, box, uid);
    var (w1, validity) := UidValidityOf(o, w0, box);
    var (w2, there) := UidExists(o, w1, box, uid);
    if there.Ok? { KindOfPresent(o, w2, w0.conn, box, uid); }
  }

  lemma ExistsUidplus(o: Oracle, w: World, box: string, uid: nat)
    ensures UidExists(o, w, box, uid).0.server.uidplus == w.server.uidplus
  {
    OpenArrives(o, w, box);
    ArriveUidplus(o, w);
    ArriveUidplus(o, Open(o, w, box).0);
    hide Arrive, Open;
  }

  // ----- when every call works and nobody else is at work -----

  /** The message is gone from its mailbox, and nothing else has changed. */
  predicate Expunged(s: Server, t: Server, box: string, uid: nat) {
    && box in s.boxes && t.names == s.names
    && t.boxes == s.boxes[box := s.boxes[box].(msgs := s.boxes[box].msgs - {uid})]
  }

  /** It is in the bin instead, as it was, and nothing else has changed. */
  predicate Moved(s: Server, t: Server, box: string, uid: nat, bin: string) {
    && box in s.boxes && bin in s.boxes && bin != box && uid in s.boxes[box].msgs && t.names == s.names
    && var from, to := s.boxes[box], s.boxes[bin];
       t.boxes == s.boxes[box := from.(msgs := from.msgs - {uid})]
                         [bin := to.(uidNext := to.uidNext + 1, msgs := to.msgs[to.uidNext := from.msgs[uid]])]
  }

  lemma SmoothVersion(o: Oracle, w: World, box: string) returns (sel: Selection)
    requires Smooth(o) && Ready(w, box)
    ensures sel.box == box && sel.validity == w.server.boxes[box].validity
    ensures UidValidityOf(o, w, box) == (World(w.server, w.turn + 1, Some(sel), w.conn), Ok(sel.validity))
  {
    SmoothOpen(o, w, box);
    sel := Open(o, w, box).1.value;
    hide Open;
  }

  lemma SmoothExists(o: Oracle, w: World, sel: Selection, uid: nat)
    requires Smooth(o) && w.open == Some(sel) && Selected(w.server, sel)
    ensures UidExists(o, w, sel.box, uid) == (w.(turn := w.turn + 2), Ok(uid in w.server.boxes[sel.box].msgs))
  {
    SmoothOpen(o, w, sel.box);
    var (w1, again) := Open(o, w, sel.box);
    assert again.value == sel by { assert Arrive(o, w) == w.server; }
    assert Arrive(o, w1) == w1.server;
    hide Arrive, Open;
  }

  lemma SmoothBin(o: Oracle, w: World)
    requires Smooth(o)
    ensures var (w', r) := FindBin(o, w);
            && w' == w.(turn := w.turn + 1) && r.Ok?
            && (r.value.Some? ==> IsBin(w.server, r.value.value))
            && (r.value.None? ==> forall bin: string :: !IsBin(w.server, bin))
  {
    BinFound(o, w);
    assert Arrive(o, w) == w.server;
    hide Arrive, FirstTrash, IsBin;
  }

  lemma SmoothLock(o: Oracle, w: World, sel: Selection)
    requires Smooth(o) && w.open == Some(sel) && Selected(w.server, sel)
    ensures LockOn(o, w, w.conn, sel.box) == (w.(turn := w.turn + 1), Ok(sel))
  {
    assert Arrive(o, w) == w.server;
    hide Arrive;
  }

  lemma SmoothMove(o: Oracle, w: World, sel: Selection, uid: nat, bin: string)
    requires Smooth(o) && w.open == Some(sel) && Selected(w.server, sel)
    requires uid in w.server.boxes[sel.box].msgs && bin in w.server.boxes && bin != sel.box
    ensures var (w', r) := Move(o, w, sel, uid, bin);
            && r == Ok(true) && w'.open == Some(sel) && w'.conn == w.conn && Selected(w'.server, sel)
            && Moved(w.server, w'.server, sel.box, uid, bin)
  {
    assert Arrive(o, w) == w.server;
    hide Arrive;
  }

  lemma SmoothDelete(o: Oracle, w: World, sel: Selection, uid: nat)
    requires Smooth(o) && w.open == Some(sel) && Selected(w.server, sel) && w.server.uidplus
    requires uid in w.server.boxes[sel.box].msgs
    ensures var (w', r) := Delete(o, w, sel, uid);
            && r == Ok(true) && w'.open == Some(sel) && w'.conn == w.conn && Selected(w'.server, sel)
            && Expunged(w.server, w'.server, sel.box, uid)
  {
    assert Arrive(o, w) == w.server;
    hide Arrive;
    var m := w.server.boxes[sel.box];
    var stored := Flag(w.server, sel.box, uid, true);
    assert {uid} * FlaggedUids(stored.boxes[sel.box]) == {uid};
    assert stored.boxes[sel.box].msgs - {uid} == m.msgs - {uid};
  }

  lemma SmoothMoveToBin(o: Oracle, w: World, sel: Selection, uid: nat, bin: string)
    requires Smooth(o) && w.open == Some(sel) && Selected(w.server, sel)
    requires uid in w.server.boxes[sel.box].msgs && bin in w.server.boxes && bin != sel.box
    ensures var (w', r) := MoveToBin(o, w, w.conn, sel.box, uid, bin);
            r == Ok(Binned) && Moved(w.server, w'.server, sel.box, uid, bin)
  {
    SmoothLock(o, w, sel);
    var w1 := w.(turn := w.turn + 1);
    SmoothMove(o, w1, sel, uid, bin);
    var w2 := Move(o, w1, sel, uid, bin).0;
    SmoothExists(o, w2, sel, uid);
    assert uid !in w2.server.boxes[sel.box].msgs;
    hide LockOn, Move, UidExists, Moved, Selected;
  }

  lemma SmoothExpunge(o: Oracle, w: World, sel: Selection, uid: nat)
    requires Smooth(o) && w.open == Some(sel) && Selected(w.server, sel) && w.server.uidplus
    requires uid in w.server.boxes[sel.box].msgs
    ensures var (w', r) := ExpungeOne(o, w, w.conn, sel.box, uid);
            r == Ok(Deleted) && Expunged(w.server, w'.server, sel.box, uid)
  {
    SmoothLock(o, w, sel);
    var w1 := w.(turn := w.turn + 1);
    SmoothDelete(o, w1, sel, uid);
    var w2 := Delete(o, w1, sel, uid).0;
    SmoothExists(o, w2, sel, uid);
    assert uid !in w2.server.boxes[sel.box].msgs;
    hide LockOn, Delete, UidExists, Expunged, Selected;
  }

  lemma SmoothPresent(o: Oracle, w: World, sel: Selection, uid: nat)
    requires Smooth(o) && w.open == Some(sel) && Selected(w.server, sel)
    requires uid in w.server.boxes[sel.box].msgs
    ensures var (w', r) := RemovePresent(o, w, w.conn, sel.box, uid);
            if HasBinFor(w.server, sel.box) then
              r == Ok(Binned)
              && exists bin: string :: IsBin(w.server, bin) && Moved(w.server, w'.server, sel.box, uid, bin)
            else if w.server.uidplus then r == Ok(Deleted) && Expunged(w.server, w'.server, sel.box, uid)
            else r == Err && w'.server == w.server
  {
    SmoothBin(o, w);
    var (w1, found) := FindBin(o, w);
    hide FindBin, MoveToBin, Moved, Expunged, FirstRoleIsTrash;
    if found.value.Some? {
      var bin := found.value.value;
      assert bin in w.server.boxes;
      forall other: string | IsBin(w.server, other) ensures other == bin { OneBin(w.server, other, bin); }
      if bin != "" && bin != sel.box {
        SmoothMoveToBin(o, w1, sel, uid, bin);
        assert HasBinFor(w.server, sel.box);
        return;
      }
    }
    hide IsBin;
    if w.server.uidplus { SmoothExpunge(o, w1, sel, uid); }
  }

  /**
   * Nobody else at work and every call working, the removal does what the account calls for. No
   * mailbox, a target id that is no UID or a version that is not the mailbox's is refused; a message that is
   * not there is nothing to remove; one that is there ends up in the bin, the same bytes and flags,
   * if the account has a bin other than its mailbox; without one it is expunged on a server with
   * UIDPLUS and left alone on one without. Nothing else changes.
   */
  lemma RemovalExactly(o: Oracle, w: World, id: TargetId, expected: Option<nat>, box: string)
    requires Inv(w.server) && Smooth(o) && Ready(w, box) && box != ""
    ensures var s, (w', r) := w.server, RemoveItem(o, w, id, expected, Some(box));
            if id.NotInteger? || id.n <= 0 || (expected.Some? && expected.value != s.boxes[box].validity) then
              r == Err && w'.server == s
            else if id.n !in s.boxes[box].msgs then
              r == Ok(NothingToRemove) && w'.server == s
            else if HasBinFor(s, box) then
              r == Ok(Binned) && exists bin: string :: IsBin(s, bin) && Moved(s, w'.server, box, id.n, bin)
            else if s.uidplus then
              r == Ok(Deleted) && Expunged(s, w'.server, box, id.n)
            else
              r == Err && w'.server == s
    ensures forall none: Option<string> :: none == None || none == Some("") ==>
              var (w', r) := RemoveItem(o, w, id, expected, none); r == Err && w'.server == w.server
  {
    assert Attach(o, w) == w;
    hide Attach, UidValidityOf, UidExists, RemovePresent, HasBinFor, IsBin, Moved, Expunged;
    if id.NotInteger? || id.n <= 0 { return; }
    var uid: nat := id.n;
    var sel := SmoothVersion(o, w, box);
    if expected.Some? && expected.value != sel.validity { return; }
    var w1 := World(w.server, w.turn + 1, Some(sel), w.conn);
    SmoothExists(o, w1, sel, uid);
    var w2 := w1.(turn := w1.turn + 2);
    if uid in w.server.boxes[box].msgs {
      SmoothPresent(o, w2, sel, uid);
      assert RemovePresent(o, w2, w.conn, box, uid) == RemoveItem(o, w, id, expected, Some(box));
    }
  }
}
