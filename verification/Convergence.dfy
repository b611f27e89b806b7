/**
 * Listing the source and upserting into the target, pass after pass, under the smallest
 * driver the connectors allow: a pass stops at the first failure, and its cursor is kept
 * only if it completes. A crash is a failure of whatever call it struck. Other clients are
 * at work on both servers throughout.
 */
module Convergence {
  import opened Outcomes
  import opened ImapServer
  import opened MailConventions
  import opened MailTarget
  import opened HandleSafety
  import opened RetrySafety
  import opened MailSource
  import opened IncrementalListing

  predicate Keyed(raw: Raw) {
    MessageIdFromEnvelope(raw.envelopeId).Some?
  }

  function KeyOf(raw: Raw): string
    requires Keyed(raw)
  {
    NormaliseKey(raw.envelopeId.value)
  }

  // ----- the driver -----

  /** Copy the keyed items one by one; those without an id are given one elsewhere. */
  function CopyAll(oS: Oracle, oT: Oracle, src: World, tgt: World, items: seq<Item>, box: string): (World, World, bool)
    decreases |items|
  {
    if items == [] then (src, tgt, true)
    else if items[0].messageId == "" then CopyAll(oS, oT, src, tgt, items[1..], box)
    else
      var (s1, raw) := Fetch(oS, src, items[0]);
      if raw.Err? then (s1, tgt, false)
      else
        var (t1, u) := Upsert(oT, tgt, box, raw.value, items[0].keywords);
        if u.Err? then (s1, t1, false) else CopyAll(oS, oT, s1, t1, items[1..], box)
  }

  /**
   * Both servers, the stored cursor, the history of what completed passes listed, and of
   * that what was listed by a pass that no recreation of the source mailbox divided.
   */
  datatype Sync = Sync(source: World, target: World, cursor: Option<string>, seen: set<Handle>, copied: set<Handle>)

  function ListStep(oS: Oracle, p: Sync, folder: string): (World, Result<Listed>) {
    ListSince(oS, p.source, folder, p.cursor)
  }

  /** The handles the listing of this pass answers. */
  function ListedNow(oS: Oracle, p: Sync, folder: string): set<Handle> {
    var s := ListStep(oS, p, folder).0.server;
    if folder in s.boxes then ListedHandles(s, folder, Resume(p.cursor, s.boxes[folder].validity)) else {}
  }

  /** The source mailbox was not recreated between the listing, at `l`, and the end of the pass, at `q`. */
  predicate Undivided(l: Server, q: Server, folder: string) {
    folder in l.boxes && folder in q.boxes && q.boxes[folder].validity == l.boxes[folder].validity
  }

  function SyncPass(oS: Oracle, oT: Oracle, p: Sync, folder: string, box: string): (Sync, bool) {
    var (s1, listed) := ListStep(oS, p, folder);
    if listed.Err? then (p.(source := s1), false)
    else
      var (s2, t2, ok) := CopyAll(oS, oT, s1, p.target, listed.value.items, box);
      if !ok then (p.(source := s2, target := t2), false)
      else
        var now := ListedNow(oS, p, folder);
        (Sync(s2, t2, Some(listed.value.cursor), p.seen + now,
              p.copied + if Undivided(s1.server, s2.server, folder) then now else {}), true)
  }

  // ----- the target, whoever else is at work on it -----

  /** A message with this key, there at `t0` or come since, that we have not taken away again. */
  predicate Landed(t0: Server, t: Server, box: string, key: string, g: Handle) {
    && g.box == box && g in t.named && HasKey(t.named[g], key) && !Taken(t, g, Ours)
    && (g in t0.named ==> Alive(t0, g))
  }

  ghost predicate Delivered(t0: Server, t: Server, box: string, key: string) {
    exists g :: Landed(t0, t, box, key, g)
  }

  predicate Lost(t: Server, g: Handle) {
    Taken(t, g, Others) || Renumbered(t, g)
  }

  /** Such a message has been taken by another client, or its mailbox recreated. */
  ghost predicate LostToOthers(t0: Server, t: Server, box: string, key: string) {
    exists g :: Landed(t0, t, box, key, g) && Lost(t, g)
  }

  lemma DeliveredIsThere(t0: Server, t: Server, box: string, key: string)
    requires Inv(t) && Delivered(t0, t, box, key)
    ensures CopyUids(t, box, key) != {} || LostToOthers(t0, t, box, key)
  {
    var g :| Landed(t0, t, box, key, g);
    LandedIsThere(t0, t, box, key, g);
    hide Inv, CopyUids, Landed;
    if CopyUids(t, box, key) == {} { assert Lost(t, g); }
  }

  lemma LandedIsThere(t0: Server, t: Server, box: string, key: string, g: Handle)
    requires Inv(t) && Landed(t0, t, box, key, g)
    ensures Lost(t, g) || g.uid in CopyUids(t, box, key)
  {
    if !Renumbered(t, g) { assert BoxInv(t, g.box); }
    hide HasKey;
  }

  lemma DeliveredStays(t0: Server, t: Server, u: Server, box: string, key: string)
    requires Delivered(t0, t, box, key) && Progress(t, u, iset{})
    ensures Delivered(t0, u, box, key)
  {
    hide Inv, HasKey, Alive;
    var g :| Landed(t0, t, box, key, g);
    assert !Touched(t, u, g);
    assert Landed(t0, u, box, key, g);
  }

  /** In every message of the source's history that has this key, the writer finds it. */
  ghost predicate FaithfulOn(src: Server, key: string) {
    forall h :: h in src.named && HasKey(src.named[h], key) ==> Faithful(src.named[h])
  }

  /**
   * From `t0` to `t` this connection removed and flagged nothing, and of keys that nobody
   * else delivers and the writer finds there are no new copies beyond the first.
   */
  ghost predicate Advanced(oT: Oracle, src: Server, t0: World, t: World, box: string) {
    && t0.turn <= t.turn && Progress(t0.server, t.server, iset{})
    && forall key: string :: SilentTurns(oT, t0.turn, t.turn, box, key) && FaithfulOn(src, key) ==>
         Bounded(CopyUids(t0.server, box, key), CopyUids(t.server, box, key))
  }

  lemma AdvancedRefl(oT: Oracle, src: Server, t: World, box: string)
    requires Inv(t.server)
    ensures Advanced(oT, src, t, t, box)
  {
    ProgressRefl(t.server, iset{});
    hide Progress, CopyUids, FaithfulOn;
  }

  lemma FaithfulBefore(src: Server, later: Server, key: string)
    requires Later(src, later) && FaithfulOn(later, key)
    ensures FaithfulOn(src, key)
  {
    hide Faithful, HasKey;
  }

  /** The source may move on meanwhile. */
  lemma AdvancedLater(oT: Oracle, src: Server, later: Server, t0: World, t: World, box: string)
    requires Advanced(oT, src, t0, t, box) && Later(src, later)
    ensures Advanced(oT, later, t0, t, box)
  {
    hide Progress, CopyUids, FaithfulOn, Later, SilentTurns, Bounded;
    forall key: string | SilentTurns(oT, t0.turn, t.turn, box, key) && FaithfulOn(later, key)
      ensures Bounded(CopyUids(t0.server, box, key), CopyUids(t.server, box, key))
    {
      FaithfulBefore(src, later, key);
    }
  }

  /** Whatever fails and whatever others do: an upsert loses no message and gives no key a second copy. */
  lemma UpsertKeepsCopies(oT: Oracle, src: Server, h: Handle, t0: World, t: World, target: string, raw: Raw,
                          keywords: seq<Keyword>, box: string)
    requires Advanced(oT, src, t0, t, box) && h in src.named && src.named[h] == raw
    ensures var t' := Upsert(oT, t, target, raw, keywords).0;
            && Advanced(oT, src, t0, t', box) && Progress(t.server, t'.server, iset{}) && t.turn <= t'.turn
            && forall g :: Alive(t.server, g) ==> Alive(t'.server, g) || Lost(t'.server, g)
  {
    var t' := Upsert(oT, t, target, raw, keywords).0;
    QuietIs(t0.server, t.server);
    UpsertKeeps(oT, t, target, raw, keywords);
    ProgressTrans(t0.server, t.server, t'.server, iset{});
    UpsertTurns(oT, t, target, raw, keywords);
    hide Upsert, Progress, CopyUids, SilentOn, Inv, Later, Attach, Find, UidValidityOf, Append, Bounded, Lost;
    hide Faithful, HasKey;
    forall key: string | SilentTurns(oT, t0.turn, t'.turn, box, key) && FaithfulOn(src, key)
      ensures Bounded(CopyUids(t0.server, box, key), CopyUids(t'.server, box, key))
    {
      assert SilentTurns(oT, t0.turn, t.turn, box, key);
      UpsertBounded(oT, t, target, raw, keywords, box, key);
      BoundedTrans(CopyUids(t0.server, box, key), CopyUids(t.server, box, key), CopyUids(t'.server, box, key));
    }
    forall g | Alive(t.server, g) ensures Alive(t'.server, g) || Lost(t'.server, g) {
      QuietSurvives(t.server, t'.server, g);
    }
  }

  lemma QuietSurvives(s: Server, t: Server, g: Handle)
    requires Progress(s, t, iset{}) && Alive(s, g)
    ensures Alive(t, g) || Lost(t, g)
  {
    hide Inv, Later;
    assert !Touched(s, t, g);
    OthersSurvive(s, t, g);
  }

  /** The key of these bytes, if they have one and the writer finds it, has been delivered. */
  ghost predicate OnTarget(t0: Server, t: Server, box: string, raw: Raw) {
    Keyed(raw) && Faithful(raw) ==> Delivered(t0, t, box, KeyOf(raw))
  }

  lemma OnTargetStays(t0: Server, t: Server, u: Server, box: string, raw: Raw)
    requires OnTarget(t0, t, box, raw) && Progress(t, u, iset{})
    ensures OnTarget(t0, u, box, raw)
  {
    hide Delivered, Progress, Faithful;
    if Keyed(raw) && Faithful(raw) { DeliveredStays(t0, t, u, box, KeyOf(raw)); }
  }

  /** The id the writer goes by normalises to the key the listing goes by. */
  lemma WriterKey(raw: Raw)
    requires Keyed(raw) && Faithful(raw) && ExtractMessageId(raw.headerId).Some?
    ensures KeyOf(raw) == NormaliseKey(ExtractMessageId(raw.headerId).value)
  {
    hide NormaliseKey, ExtractMessageId;
  }

  lemma MeansKey(m: Raw, raw: Raw)
    requires Keyed(raw) && Faithful(raw) && Means(m, raw)
    ensures HasKey(m, KeyOf(raw))
  {
    if m != raw { WriterKey(raw); }
    hide NormaliseKey, ExtractMessageId;
  }

  /** An answered upsert of keyed bytes has delivered their key. */
  lemma UpsertPuts(oT: Oracle, t0: World, t: World, box: string, raw: Raw, keywords: seq<Keyword>)
    requires Progress(t0.server, t.server, iset{}) && Upsert(oT, t, box, raw, keywords).1.Ok?
    ensures OnTarget(t0.server, Upsert(oT, t, box, raw, keywords).0.server, box, raw)
  {
    QuietIs(t0.server, t.server);
    var g := AnsweredWasDelivered(oT, t, box, raw, keywords);
    var t' := Upsert(oT, t, box, raw, keywords).0;
    if Keyed(raw) && Faithful(raw) {
      MeansKey(t'.server.named[g], raw);
      hide Upsert, Means, HasKey, Alive, Inv, KeyOf;
      if g in t0.server.named { AliveBefore(t0.server, t.server, g); }
      assert Landed(t0.server, t'.server, box, KeyOf(raw), g);
    }
  }

  // ----- from listing to fetch -----

  /** The item was listed from `s` under UIDVALIDITY `v`, and says honestly whether it has a key. */
  predicate ListedFrom(s: Server, folder: string, v: nat, item: Item) {
    var h := Handle(folder, v, UidOf(item));
    item.folder == folder && h in s.named && (item.messageId == "" <==> !Keyed(s.named[h]))
  }

  lemma ItemIsListed(s: Server, folder: string, uid: nat)
    requires Inv(s) && folder in s.boxes && uid in s.boxes[folder].msgs
    ensures var item := ItemOf((uid, s.boxes[folder].msgs[uid]), folder);
            ListedFrom(s, folder, s.boxes[folder].validity, item) && UidOf(item) == uid
  {
    assert BoxInv(s, folder);
    SourceRefRoundTrip(folder, uid);
    hide Inv, UidFromSourceRef, SourceRef;
  }

  /** The bytes a fetch brings are those of the UID under the UIDVALIDITY the mailbox had when it was selected. */
  lemma FetchNames(oS: Oracle, w: World, item: Item)
    requires Inv(w.server)
    ensures var (w', r) := Fetch(oS, w, item);
            && Inv(w'.server) && Later(w.server, w'.server)
            && (r.Ok? ==>
                  && var s := Arrive(oS, w);
                  && item.folder in s.boxes && Later(s, w'.server)
                  && var g := Handle(item.folder, s.boxes[item.folder].validity, UidOf(item));
                     g in w'.server.named && r.value == w'.server.named[g])
  {
    var (w1, sel) := OpenFresh(oS, w, item.folder);
    OpenAnswers(oS, w, item.folder);
    assert w1.server == Arrive(oS, w);
    hide OpenFresh, UidOf, Inv, Later, Arrive;
    if sel.Ok? {
      TriesBring(oS, w1, sel.value, UidOf(item), FETCH_ATTEMPTS);
      LaterIsTransitive(w.server, w1.server, Fetch(oS, w, item).0.server);
    }
  }

  /** The mailbox still has this UIDVALIDITY when the fetch of this turn selects it. */
  predicate StillAtSelect(oS: Oracle, w: World, folder: string, v: nat) {
    folder in w.server.boxes && w.server.boxes[folder].validity == v && !Recreates(oS(w.turn).env, folder)
  }

  /**
   * Listing and fetching one message are two operations, and the second goes by UID alone.
   * Whatever happens between and during them, an answered fetch brings the message the
   * listed handle names exactly if the mailbox had not been recreated by the time the fetch
   * selected it, or the same UID there happens to hold equal bytes.
   */
  lemma FetchExactly(oS: Oracle, w: World, s0: Server, item: Item, v: nat)
    requires Inv(s0) && Inv(w.server) && Later(s0, w.server) && ListedFrom(s0, item.folder, v, item)
    requires item.folder in s0.boxes && s0.boxes[item.folder].validity == v
    ensures var (w', r) := Fetch(oS, w, item);
            && Inv(w'.server) && Later(w.server, w'.server)
            && (r.Ok? ==>
                  && item.folder in Arrive(oS, w).boxes
                  && var h := Handle(item.folder, v, UidOf(item));
                     var g := h.(validity := Arrive(oS, w).boxes[item.folder].validity);
                     && h in s0.named && g in w'.server.named && r.value == w'.server.named[g]
                     && (g == h <==> StillAtSelect(oS, w, item.folder, v))
                     && (r.value == s0.named[h] <==>
                           StillAtSelect(oS, w, item.folder, v) || w'.server.named[g] == s0.named[h]))
  {
    FetchNames(oS, w, item);
    VersionGrows(s0, w.server, item.folder);
    ArriveValidity(oS, w, item.folder);
    LaterIsTransitive(s0, w.server, Fetch(oS, w, item).0.server);
    hide Fetch, Arrive, UidOf, Inv, Recreates, Keyed;
  }

  /** In particular when it was not recreated by the end of the fetch. */
  lemma FetchBringsTheListed(oS: Oracle, w: World, s0: Server, item: Item, v: nat)
    requires Inv(s0) && Inv(w.server) && Later(s0, w.server) && ListedFrom(s0, item.folder, v, item)
    requires item.folder in s0.boxes && s0.boxes[item.folder].validity == v
    ensures var (w', r) := Fetch(oS, w, item);
            && Inv(w'.server) && Later(w.server, w'.server)
            && (r.Ok? && Undivided(s0, w'.server, item.folder) ==>
                  Handle(item.folder, v, UidOf(item)) in s0.named
                  && r.value == s0.named[Handle(item.folder, v, UidOf(item))])
  {
    FetchExactly(oS, w, s0, item, v);
    FetchNames(oS, w, item);
    var (w', r) := Fetch(oS, w, item);
    if r.Ok? && Undivided(s0, w'.server, item.folder) {
      ArriveValidity(oS, w, item.folder);
      LaterIsTransitive(s0, w.server, Arrive(oS, w));
      Between(s0, Arrive(oS, w), w'.server, item.folder);
    }
    hide Fetch, Arrive, UidOf, Inv, Later, Recreates, Keyed;
  }

  lemma FetchOneBrings(oS: Oracle, w: World, sel: Selection, uid: nat)
    requires Inv(w.server)
    ensures var (w1, m) := FetchOne(oS, w, sel, uid);
            && Inv(w1.server) && Later(w.server, w1.server)
            && (m.Ok? && m.value.Some? ==>
                  var h := Handle(sel.box, sel.validity, uid); h in w1.server.named && w1.server.named[h] == m.value.value)
  {
    StepsInv(w.server, oS(w.turn).env);
    var (w1, m) := FetchOne(oS, w, sel, uid);
    if m.Ok? && m.value.Some? { assert BoxInv(w1.server, sel.box); }
    hide Later;
  }

  lemma {:induction false} TriesBring(oS: Oracle, w: World, sel: Selection, uid: nat, tries: nat)
    requires Inv(w.server)
    ensures var (w', r) := FetchTries(oS, w, sel, uid, tries);
            && Inv(w'.server) && Later(w.server, w'.server)
            && (r.Ok? ==>
                  var h := Handle(sel.box, sel.validity, uid);
                  h in w'.server.named && w'.server.named[h] == r.value)
    decreases tries
  {
    hide FetchOne, Inv, Later;
    LaterRefl(w.server);
    if tries > 0 {
      var (w1, m) := FetchOne(oS, w, sel, uid);
      FetchOneBrings(oS, w, sel, uid);
      if m.Ok? && m.value.None? {
        TriesBring(oS, w1, sel, uid, tries - 1);
        LaterIsTransitive(w.server, w1.server, FetchTries(oS, w, sel, uid, tries).0.server);
      }
    }
  }

  /** A UIDVALIDITY seen at both ends was there all along. */
  lemma Between(s: Server, t: Server, u: Server, folder: string)
    requires Inv(s) && Inv(t) && Inv(u) && Later(s, t) && Later(t, u) && Undivided(s, u, folder)
    ensures Undivided(s, t, folder)
  {
    VersionGrows(s, t, folder);
    VersionGrows(t, u, folder);
    hide Inv;
  }

  // ----- all the items of a pass -----

  /** The message this item was listed for has its key on the target, if it has one. */
  ghost predicate HasArrived(s0: Server, t0: Server, t: Server, folder: string, v: nat, item: Item, box: string) {
    var h := Handle(folder, v, UidOf(item));
    h in s0.named && OnTarget(t0, t, box, s0.named[h])
  }

  lemma ListedFromNamed(s: Server, folder: string, v: nat, item: Item)
    requires ListedFrom(s, folder, v, item)
    ensures item.folder == folder && Handle(folder, v, UidOf(item)) in s.named
    ensures item.messageId != "" ==> Keyed(s.named[Handle(folder, v, UidOf(item))])
  {
  }

  lemma UnkeyedArrives(s0: Server, t0: Server, t: Server, folder: string, v: nat, item: Item, box: string)
    requires ListedFrom(s0, folder, v, item) && item.messageId == ""
    ensures HasArrived(s0, t0, t, folder, v, item, box)
  {
    hide Keyed, UidOf, Delivered;
  }

  lemma Arrives(s0: Server, t0: Server, t1: Server, t: Server, folder: string, v: nat, item: Item, box: string)
    requires Handle(folder, v, UidOf(item)) in s0.named
    requires OnTarget(t0, t1, box, s0.named[Handle(folder, v, UidOf(item))]) && Progress(t1, t, iset{})
    ensures HasArrived(s0, t0, t, folder, v, item, box)
  {
    hide OnTarget, Progress, UidOf;
    OnTargetStays(t0, t1, t, box, s0.named[Handle(folder, v, UidOf(item))]);
  }

  lemma CopyOne(oS: Oracle, oT: Oracle, src: World, t0: World, tgt: World, item: Item, box: string, s0: Server, v: nat)
    requires Inv(s0) && Inv(src.server) && Later(s0, src.server) && Advanced(oT, src.server, t0, tgt, box)
    requires ListedFrom(s0, item.folder, v, item) && item.folder in s0.boxes && s0.boxes[item.folder].validity == v
    requires Fetch(oS, src, item).1.Ok?
    ensures var (s1, raw) := Fetch(oS, src, item);
            var (t1, u) := Upsert(oT, tgt, box, raw.value, item.keywords);
            && Inv(s1.server) && Later(src.server, s1.server)
            && Advanced(oT, s1.server, t0, t1, box) && Progress(tgt.server, t1.server, iset{}) && tgt.turn <= t1.turn
            && (u.Ok? && Undivided(s0, s1.server, item.folder) ==>
                  && Handle(item.folder, v, UidOf(item)) in s0.named
                  && OnTarget(t0.server, t1.server, box, s0.named[Handle(item.folder, v, UidOf(item))]))
  {
    AdvancedIs(oT, src.server, t0, tgt, box);
    hide Fetch, Upsert, Inv, Later, ListedFrom, OnTarget, UidOf, Undivided, Progress, Advanced, Lost, Arrive;
    var (s1, raw) := Fetch(oS, src, item);
    FetchBringsTheListed(oS, src, s0, item, v);
    FetchNames(oS, src, item);
    AdvancedLater(oT, src.server, s1.server, t0, tgt, box);
    var g := Handle(item.folder, Arrive(oS, src).boxes[item.folder].validity, UidOf(item));
    UpsertKeepsCopies(oT, s1.server, g, t0, tgt, box, raw.value, item.keywords, box);
    if Upsert(oT, tgt, box, raw.value, item.keywords).1.Ok? {
      UpsertPuts(oT, t0, tgt, box, raw.value, item.keywords);
    }
  }

  lemma {:induction false} CopyAllPuts(oS: Oracle, oT: Oracle, src: World, t0: World, tgt: World, items: seq<Item>,
                                       folder: string, box: string, s0: Server, v: nat)
    requires Inv(s0) && Inv(src.server) && Later(s0, src.server) && Advanced(oT, src.server, t0, tgt, box)
    requires folder in s0.boxes && s0.boxes[folder].validity == v
    requires forall item :: item in items ==> ListedFrom(s0, folder, v, item)
    ensures var (s1, t1, ok) := CopyAll(oS, oT, src, tgt, items, box);
            && Inv(s1.server) && Later(src.server, s1.server)
            && Advanced(oT, s1.server, t0, t1, box) && Progress(tgt.server, t1.server, iset{}) && tgt.turn <= t1.turn
            && (ok && Undivided(s0, s1.server, folder) ==>
                  forall item :: item in items ==> HasArrived(s0, t0.server, t1.server, folder, v, item, box))
    decreases |items|
  {
    AdvancedIs(oT, src.server, t0, tgt, box);
    ProgressRefl(tgt.server, iset{});
    LaterRefl(src.server);
    hide Fetch, Upsert, Inv, Later, HasArrived, Progress, Advanced, Undivided;
    if items == [] { return; }
    var item, rest := items[0], items[1..];
    var (s', t', ok) := CopyAll(oS, oT, src, tgt, items, box);
    assert ListedFrom(s0, folder, v, item);
    ListedFromNamed(s0, folder, v, item);
    hide ListedFrom;
    if item.messageId == "" {
      CopyAllPuts(oS, oT, src, t0, tgt, rest, folder, box, s0, v);
      UnkeyedArrives(s0, t0.server, t'.server, folder, v, item, box);
    } else {
      var (s1, raw) := Fetch(oS, src, item);
      FetchBringsTheListed(oS, src, s0, item, v);
      AdvancedLater(oT, src.server, s1.server, t0, tgt, box);
      if raw.Err? { return; }
      var (t1, u) := Upsert(oT, tgt, box, raw.value, item.keywords);
      CopyOne(oS, oT, src, t0, tgt, item, box, s0, v);
      if u.Err? { return; }
      LaterIsTransitive(s0, src.server, s1.server);
      CopyAllPuts(oS, oT, s1, t0, t1, rest, folder, box, s0, v);
      LaterIsTransitive(src.server, s1.server, s'.server);
      ProgressTrans(tgt.server, t1.server, t'.server, iset{});
      if ok && Undivided(s0, s'.server, folder) {
        Between(s0, s1.server, s'.server, folder);
        Arrives(s0, t0.server, t1.server, t'.server, folder, v, item, box);
      }
    }
    ArrivedAll(items, s0, t0.server, t'.server, folder, v, box);
  }

  lemma AdvancedIs(oT: Oracle, src: Server, t0: World, t: World, box: string)
    requires Advanced(oT, src, t0, t, box)
    ensures Inv(t0.server) && Inv(t.server) && Later(t0.server, t.server)
    ensures t0.turn <= t.turn && Progress(t0.server, t.server, iset{})
  {
    hide Inv, Later, Touched, CopyUids;
  }

  lemma ArrivedAll(items: seq<Item>, s0: Server, t0: Server, t: Server, folder: string, v: nat, box: string)
    requires |items| > 0
    ensures HasArrived(s0, t0, t, folder, v, items[0], box)
            && (forall item :: item in items[1..] ==> HasArrived(s0, t0, t, folder, v, item, box))
            ==> forall item :: item in items ==> HasArrived(s0, t0, t, folder, v, item, box)
  {
    hide HasArrived;
    assert items == [items[0]] + items[1..];
  }

  // ----- a pass -----

  ghost predicate CopiedOnTarget(t0: World, p: Sync, h: Handle, box: string) {
    h in p.source.server.named && OnTarget(t0.server, p.target.server, box, p.source.server.named[h])
  }

  /** What holds between passes: `t0` is the target as it was when the first of them began. */
  ghost predicate Good(oT: Oracle, t0: World, p: Sync, folder: string, box: string) {
    && Inv(p.source.server) && Advanced(oT, p.source.server, t0, p.target, box)
    && CursorInv(p.source.server, folder, p.cursor, p.seen)
    && (forall h :: h in p.copied ==> CopiedOnTarget(t0, p, h, box))
    && (forall h :: h in p.seen && h !in p.copied ==> PassedBy(p.source.server, h))
  }

  lemma ListingFacts(oS: Oracle, p: Sync, folder: string)
    requires Inv(p.source.server) && CursorInv(p.source.server, folder, p.cursor, p.seen)
    requires ListStep(oS, p, folder).1.Ok?
    ensures var (w, r) := ListStep(oS, p, folder);
            && Inv(w.server) && Later(p.source.server, w.server)
            && folder in w.server.boxes
            && CursorInv(w.server, folder, Some(r.value.cursor), p.seen + ListedNow(oS, p, folder))
            && (forall u :: u in w.server.boxes[folder].msgs ==>
                  Handle(folder, w.server.boxes[folder].validity, u) in p.seen + ListedNow(oS, p, folder))
            && (forall item :: item in r.value.items ==>
                  ListedFrom(w.server, folder, w.server.boxes[folder].validity, item)
                  && Handle(folder, w.server.boxes[folder].validity, UidOf(item)) in ListedNow(oS, p, folder))
            && (forall h :: h in ListedNow(oS, p, folder) ==>
                  exists item :: item in r.value.items && h == Handle(folder, w.server.boxes[folder].validity, UidOf(item)))
  {
    var f := ListSinceAnswers(oS, p.source, folder, p.cursor);
    var (w, r) := ListStep(oS, p, folder);
    hide ListSince, Inv, Later, CursorInv, CursorMoves, Items, Listing, Resume, EncodeCursor, MaxUidNext, UidOf, ItemOf;
    CursorLater(p.source.server, w.server, folder, p.cursor, p.seen);
    PassCompletes(w.server, folder, p.cursor, p.seen, f, r.value);
    var resume := Resume(p.cursor, f.v);
    forall item | item in r.value.items
      ensures ListedFrom(w.server, folder, f.v, item)
      ensures Handle(folder, f.v, UidOf(item)) in ListedHandles(w.server, folder, resume)
    {
      var i := ItemIsOfMessage(f.listing, resume, folder, item);
      ItemIsListed(w.server, folder, f.listing[i].0);
    }
    forall h | h in ListedHandles(w.server, folder, resume)
      ensures exists item :: item in r.value.items && h == Handle(folder, f.v, UidOf(item))
    {
      ListedHasItem(w.server, folder, resume, f, h.uid);
    }
  }

  lemma ListedHasItem(s: Server, folder: string, resume: Option<int>, f: PassFacts, uid: nat)
    requires Inv(s) && AtFetch(s, folder, f) && uid in s.boxes[folder].msgs && !Skipped(uid, resume)
    ensures exists item :: item in Items(f.listing, resume, folder) && UidOf(item) == uid
  {
    var m := s.boxes[folder];
    assert uid < m.uidNext by { assert BoxInv(s, folder); }
    assert (uid, m.msgs[uid]) in f.listing;
    hide Inv, Items, Listing, UidOf, ItemOf, Skipped;
    var i :| 0 <= i < |f.listing| && f.listing[i] == (uid, m.msgs[uid]);
    MessageIsListed(f.listing, resume, folder, i);
    ItemIsListed(s, folder, uid);
    assert UidOf(ItemOf(f.listing[i], folder)) == uid;
  }

  /** What is on the target, or passed by on the source, stays so while both servers move on. */
  lemma CopiedStays(t0: World, p: Sync, q: Sync, box: string)
    requires q.copied == p.copied && q.seen == p.seen
    requires Inv(p.source.server) && Later(p.source.server, q.source.server)
    requires Progress(p.target.server, q.target.server, iset{})
    requires forall h :: h in p.copied ==> CopiedOnTarget(t0, p, h, box)
    requires forall h :: h in p.seen && h !in p.copied ==> PassedBy(p.source.server, h)
    ensures forall h :: h in q.copied ==> CopiedOnTarget(t0, q, h, box)
    ensures forall h :: h in q.seen && h !in q.copied ==> PassedBy(q.source.server, h)
  {
    hide Progress, OnTarget, PassedBy, Inv;
    forall h | h in p.copied ensures CopiedOnTarget(t0, q, h, box) {
      assert CopiedOnTarget(t0, p, h, box);
      OnTargetStays(t0.server, p.target.server, q.target.server, box, p.source.server.named[h]);
    }
    hide Later;
    forall h | h in p.seen && h !in p.copied ensures PassedBy(q.source.server, h) {
      PassedByStays(p.source.server, q.source.server, h);
    }
  }

  /**
   * On the target, unless another client took it away; and exactly once, unless another client
   * delivered it too or the writer does not find it.
   */
  ghost predicate ThereOnce(oT: Oracle, src: Server, t0: World, t: World, box: string, key: string) {
    var before, after := CopyUids(t0.server, box, key), CopyUids(t.server, box, key);
    && (after != {} || LostToOthers(t0.server, t.server, box, key))
    && (SilentTurns(oT, t0.turn, t.turn, box, key) && FaithfulOn(src, key) && |before| <= 1 ==>
          && |after| <= 1
          && (!LostToOthers(t0.server, t.server, box, key) ==> |after| == 1))
  }

  lemma AtMostOne(before: set<nat>, after: set<nat>)
    requires Bounded(before, after) && |before| <= 1
    ensures |after| <= 1 && (after != {} ==> |after| == 1)
  {
    if after <= before { SubsetSize(after, before); }
  }

  lemma AdvancedBounds(oT: Oracle, src: Server, t0: World, t: World, box: string, key: string)
    requires Advanced(oT, src, t0, t, box) && SilentTurns(oT, t0.turn, t.turn, box, key) && FaithfulOn(src, key)
    ensures Bounded(CopyUids(t0.server, box, key), CopyUids(t.server, box, key))
  {
    hide Progress, CopyUids, SilentTurns, FaithfulOn, Bounded;
  }

  lemma DeliveredOnce(oT: Oracle, src: Server, t0: World, t: World, box: string, key: string)
    requires Advanced(oT, src, t0, t, box) && Delivered(t0.server, t.server, box, key)
    ensures ThereOnce(oT, src, t0, t, box, key)
  {
    AdvancedIs(oT, src, t0, t, box);
    DeliveredIsThere(t0.server, t.server, box, key);
    hide Advanced, Progress, CopyUids, SilentTurns, Inv, LostToOthers, Delivered, FaithfulOn, Bounded;
    var before, after := CopyUids(t0.server, box, key), CopyUids(t.server, box, key);
    if SilentTurns(oT, t0.turn, t.turn, box, key) && FaithfulOn(src, key) && |before| <= 1 {
      AdvancedBounds(oT, src, t0, t, box, key);
      AtMostOne(before, after);
    }
  }

  /** Every keyed message of the mailbox whose id the writer finds is on the target. */
  ghost predicate AllThere(oT: Oracle, s: Server, src: Server, t0: World, t: World, folder: string, box: string) {
    folder in s.boxes
    && forall u :: u in s.boxes[folder].msgs ==>
         var raw := s.boxes[folder].msgs[u].raw;
         Keyed(raw) && Faithful(raw) ==> ThereOnce(oT, src, t0, t, box, KeyOf(raw))
  }

  /**
   * A pass, failing anywhere or completing, keeps what earlier passes achieved, whatever
   * other clients do to either server. If it completes undivided, every keyed message the
   * source mailbox held at its listing is on the target, exactly once.
   */
  lemma PassConverges(oS: Oracle, oT: Oracle, t0: World, p: Sync, folder: string, box: string)
    requires Good(oT, t0, p, folder, box)
    ensures var (q, ok) := SyncPass(oS, oT, p, folder, box);
            var l := ListStep(oS, p, folder).0.server;
            && Good(oT, t0, q, folder, box) && p.seen <= q.seen && p.copied <= q.copied
            && (ok && Undivided(l, q.source.server, folder) ==> AllThere(oT, l, q.source.server, t0, q.target, folder, box))
  {
    hide CopyAll, Inv, Later, CursorInv, CopiedOnTarget, ListSince, AllThere, Advanced, Progress, PassedBy, Undivided;
    var (w, r) := ListStep(oS, p, folder);
    var (q, ok) := SyncPass(oS, oT, p, folder, box);
    var f := ListSinceAnswers(oS, p.source, folder, p.cursor);
    AdvancedIs(oT, p.source.server, t0, p.target, box);
    AdvancedLater(oT, p.source.server, w.server, t0, p.target, box);
    ProgressRefl(p.target.server, iset{});
    hide ListStep, ListedNow, Answers;
    if r.Ok? { PassCopies(oS, oT, t0, p, folder, box); }
    CursorLater(p.source.server, q.source.server, folder, p.cursor, p.seen);
    CopiedStays(t0, p, Sync(q.source, q.target, p.cursor, p.seen, p.copied), box);
    if ok {
      if Undivided(w.server, q.source.server, folder) {
        SeenIsThere(oT, t0, w.server, q, folder, box);
      }
    }
  }

  /** The part of a pass after its listing. */
  lemma PassCopies(oS: Oracle, oT: Oracle, t0: World, p: Sync, folder: string, box: string)
    requires Good(oT, t0, p, folder, box) && ListStep(oS, p, folder).1.Ok?
    ensures var (q, ok) := SyncPass(oS, oT, p, folder, box);
            var l := ListStep(oS, p, folder).0.server;
            && Inv(l) && folder in l.boxes && Later(l, q.source.server)
            && Inv(q.source.server) && Later(p.source.server, q.source.server)
            && Advanced(oT, q.source.server, t0, q.target, box) && Progress(p.target.server, q.target.server, iset{})
            && (ok ==>
                  && CursorInv(q.source.server, folder, q.cursor, q.seen)
                  && (forall u :: u in l.boxes[folder].msgs ==> Handle(folder, l.boxes[folder].validity, u) in q.seen)
                  && (forall h :: h in q.copied ==> CopiedOnTarget(t0, q, h, box))
                  && (forall h :: h in q.seen && h !in q.copied ==> PassedBy(q.source.server, h)))
  {
    hide CopyAll, Inv, Later, CursorInv, CopiedOnTarget, ListSince, AllThere, Advanced, Progress, PassedBy, Undivided;
    var (w, r) := ListStep(oS, p, folder);
    var (q, ok) := SyncPass(oS, oT, p, folder, box);
    ListingFacts(oS, p, folder);
    var v := w.server.boxes[folder].validity;
    LaterRefl(w.server);
    AdvancedLater(oT, p.source.server, w.server, t0, p.target, box);
    hide ListStep, ListedNow, ListedFrom;
    CopyAllPuts(oS, oT, w, t0, p.target, r.value.items, folder, box, w.server, v);
    LaterIsTransitive(p.source.server, w.server, q.source.server);
    if ok {
      CursorLater(w.server, q.source.server, folder, q.cursor, q.seen);
      CopiedStays(t0, p, Sync(q.source, q.target, p.cursor, p.seen, p.copied), box);
      if Undivided(w.server, q.source.server, folder) {
        NewlyCopied(oS, t0, p, q, w, r.value, folder, box, v);
      } else {
        NewlyPassedBy(oS, p, q, w.server, r.value.items, folder);
        SameCopied(t0, p, q, box);
      }
    }
  }

  lemma SameCopied(t0: World, p: Sync, q: Sync, box: string)
    requires q.copied == p.copied
    requires forall h :: h in p.copied ==> CopiedOnTarget(t0, Sync(q.source, q.target, p.cursor, p.seen, p.copied), h, box)
    ensures forall h :: h in q.copied ==> CopiedOnTarget(t0, q, h, box)
  {
    hide OnTarget;
    forall h | h in q.copied ensures CopiedOnTarget(t0, q, h, box) {
      assert CopiedOnTarget(t0, Sync(q.source, q.target, p.cursor, p.seen, p.copied), h, box);
    }
  }

  lemma NewlyCopied(oS: Oracle, t0: World, p: Sync, q: Sync, w: World, r: Listed, folder: string, box: string, v: nat)
    requires q.copied == p.copied + ListedNow(oS, p, folder) && q.seen == p.seen + ListedNow(oS, p, folder)
    requires forall h :: h in p.copied ==> CopiedOnTarget(t0, Sync(q.source, q.target, p.cursor, p.seen, p.copied), h, box)
    requires Later(w.server, q.source.server)
    requires forall item :: item in r.items ==> HasArrived(w.server, t0.server, q.target.server, folder, v, item, box)
    requires forall h :: h in ListedNow(oS, p, folder) ==>
               exists item :: item in r.items && h == Handle(folder, v, UidOf(item))
    ensures forall h :: h in q.copied ==> CopiedOnTarget(t0, q, h, box)
    ensures forall h :: h in q.seen && h !in q.copied ==> h in p.seen && h !in p.copied
  {
    hide ListedNow, OnTarget, UidOf;
    forall h | h in q.copied ensures CopiedOnTarget(t0, q, h, box) {
      if h in p.copied {
        assert CopiedOnTarget(t0, Sync(q.source, q.target, p.cursor, p.seen, p.copied), h, box);
      } else {
        var item :| item in r.items && h == Handle(folder, v, UidOf(item));
        assert HasArrived(w.server, t0.server, q.target.server, folder, v, item, box);
      }
    }
  }

  /** The handles of a divided pass belong to a mailbox that is no more. */
  lemma NewlyPassedBy(oS: Oracle, p: Sync, q: Sync, l: Server, items: seq<Item>, folder: string)
    requires q.copied == p.copied && q.seen == p.seen + ListedNow(oS, p, folder)
    requires forall h :: h in p.seen && h !in p.copied ==> PassedBy(q.source.server, h)
    requires Inv(l) && Later(l, q.source.server) && folder in l.boxes && !Undivided(l, q.source.server, folder)
    requires forall h :: h in ListedNow(oS, p, folder) ==>
               exists item :: item in items && h == Handle(folder, l.boxes[folder].validity, UidOf(item))
    ensures forall h :: h in q.seen && h !in q.copied ==> PassedBy(q.source.server, h)
  {
    VersionGrows(l, q.source.server, folder);
    hide ListedNow, UidOf, Inv, Later;
  }

  /** What was listed in the mailbox as it is now has been copied. */
  lemma SeenIsThere(oT: Oracle, t0: World, s: Server, q: Sync, folder: string, box: string)
    requires Inv(s) && Later(s, q.source.server) && folder in s.boxes && Undivided(s, q.source.server, folder)
    requires forall u :: u in s.boxes[folder].msgs ==> Handle(folder, s.boxes[folder].validity, u) in q.seen
    requires forall h :: h in q.copied ==> CopiedOnTarget(t0, q, h, box)
    requires forall h :: h in q.seen && h !in q.copied ==> PassedBy(q.source.server, h)
    requires Advanced(oT, q.source.server, t0, q.target, box)
    ensures AllThere(oT, s, q.source.server, t0, q.target, folder, box)
  {
    assert BoxInv(s, folder);
    hide Inv, CopyUids, Keyed, KeyOf, Faithful, Advanced, ThereOnce, Delivered;
    forall u | u in s.boxes[folder].msgs && Keyed(s.boxes[folder].msgs[u].raw) && Faithful(s.boxes[folder].msgs[u].raw)
      ensures ThereOnce(oT, q.source.server, t0, q.target, box, KeyOf(s.boxes[folder].msgs[u].raw))
    {
      var h := Handle(folder, s.boxes[folder].validity, u);
      assert h in q.copied;
      assert CopiedOnTarget(t0, q, h, box) && q.source.server.named[h] == s.boxes[folder].msgs[u].raw;
      DeliveredOnce(oT, q.source.server, t0, q.target, box, KeyOf(s.boxes[folder].msgs[u].raw));
    }
  }

  // ----- any number of passes -----

  function SyncPasses(oS: Oracle, oT: Oracle, p: Sync, folder: string, box: string, count: nat): Sync {
    if count == 0 then p else SyncPass(oS, oT, SyncPasses(oS, oT, p, folder, box, count - 1), folder, box).0
  }

  /**
   * Convergence. From a first start, after any number of passes crashing anywhere, with
   * other clients doing anything to either server: every message that a completed pass
   * listed was copied, unless its mailbox has been recreated since; and every keyed message
   * that was copied, if the writer finds its id, is on the target, exactly once.
   */
  lemma {:induction false} PassesConverge(oS: Oracle, oT: Oracle, source: World, target: World, folder: string, box: string,
                                          count: nat)
    requires Inv(source.server) && Inv(target.server)
    ensures var q := SyncPasses(oS, oT, Sync(source, target, None, {}, {}), folder, box, count);
            && Good(oT, target, q, folder, box)
            && (forall h :: h in q.seen ==> h in q.copied || PassedBy(q.source.server, h))
            && (forall h :: h in q.copied ==>
                  && h in q.source.server.named
                  && (Keyed(q.source.server.named[h]) && Faithful(q.source.server.named[h]) ==>
                        ThereOnce(oT, q.source.server, target, q.target, box, KeyOf(q.source.server.named[h]))))
  {
    hide SyncPass, Inv, CursorInv, Keyed, KeyOf, Faithful, Advanced, ThereOnce, Delivered, PassedBy;
    var start := Sync(source, target, None, {}, {});
    if count == 0 {
      NoCursor(source.server, folder);
      AdvancedRefl(oT, source.server, target, box);
    } else {
      PassesConverge(oS, oT, source, target, folder, box, count - 1);
      PassConverges(oS, oT, target, SyncPasses(oS, oT, start, folder, box, count - 1), folder, box);
    }
    var q := SyncPasses(oS, oT, start, folder, box, count);
    forall h | h in q.copied
      ensures h in q.source.server.named
      ensures Keyed(q.source.server.named[h]) && Faithful(q.source.server.named[h]) ==>
                ThereOnce(oT, q.source.server, target, q.target, box, KeyOf(q.source.server.named[h]))
    {
      assert CopiedOnTarget(target, q, h, box);
      if Keyed(q.source.server.named[h]) && Faithful(q.source.server.named[h]) {
        DeliveredOnce(oT, q.source.server, target, q.target, box, KeyOf(q.source.server.named[h]));
      }
    }
  }

  lemma NoCursor(s: Server, folder: string)
    ensures CursorInv(s, folder, None, {})
  {
  }

  // ----- a settled source -----

  /** These steps expunge nothing from the mailbox and do not recreate it. */
  predicate Sparing(env: seq<EnvStep>, box: string)
    decreases |env|
  {
    env != [] ==> !((env[0].Expunge? || env[0].Recreate?) && env[0].box == box) && Sparing(env[1..], box)
  }

  predicate SparingTurns(o: Oracle, from: nat, to: nat, box: string) {
    forall t: nat :: from <= t < to ==> Sparing(o(t).env, box)
  }

  lemma AddSpares(s: Server, b: string, raw: Raw, flags: seq<string>, deleted: bool, box: string, key: string)
    requires Inv(s) && b in s.boxes
    ensures CopyUids(s, box, key) <= CopyUids(AddMessage(s, b, raw, flags, deleted), box, key)
  {
    assert BoxInv(s, b);
    assert s.boxes[b].uidNext !in s.boxes[b].msgs;
    hide HasKey, Inv, BoxInv;
  }

  lemma FlagSpares(s: Server, b: string, uid: nat, deleted: bool, box: string, key: string)
    requires b in s.boxes
    ensures CopyUids(s, box, key) <= CopyUids(Flag(s, b, uid, deleted), box, key)
  {
    hide HasKey;
  }

  lemma StepSpares(s: Server, e: EnvStep, box: string, key: string)
    requires Inv(s) && !((e.Expunge? || e.Recreate?) && e.box == box)
    ensures CopyUids(s, box, key) <= CopyUids(Step(s, e), box, key)
  {
    hide HasKey, Inv, AddMessage, Flag, FlaggedUids;
    match e
    case Deliver(b, raw, flags, deleted) =>
      if b in s.boxes { AddSpares(s, b, raw, flags, deleted, box, key); }
    case SetDeleted(b, uid, deleted) =>
      if b in s.boxes { FlagSpares(s, b, uid, deleted, box, key); }
    case Expunge(b) =>
    case Recreate(b, attributes) =>
  }

  lemma {:induction false} StepsSpare(s: Server, env: seq<EnvStep>, box: string, key: string)
    requires Inv(s) && Sparing(env, box)
    ensures CopyUids(s, box, key) <= CopyUids(Steps(s, env), box, key)
    decreases |env|
  {
    hide CopyUids, Inv, Later;
    if env != [] {
      StepInv(s, env[0]);
      StepSpares(s, env[0], box, key);
      StepsSpare(Step(s, env[0]), env[1..], box, key);
    }
  }

  lemma {:induction false} AlongsideSpares(o: Oracle, s: Server, from: nat, to: nat, box: string, key: string)
    requires Inv(s) && SparingTurns(o, from, to, box)
    ensures CopyUids(s, box, key) <= CopyUids(Alongside(o, s, from, to), box, key)
    decreases if from < to then to - from else 0
  {
    hide CopyUids, Inv, Later, Steps, Sparing;
    if from < to {
      StepsInv(s, o(from).env);
      StepsSpare(s, o(from).env, box, key);
      AlongsideSpares(o, Steps(s, o(from).env), from + 1, to, box, key);
    }
  }

  lemma FindAlongside(o: Oracle, w: World, box: string, naturalKey: string)
    ensures var w' := Find(o, w, box, naturalKey).0;
            w.turn <= w'.turn && w'.server == Alongside(o, w.server, w.turn, w'.turn)
  {
    OpenArrives(o, w, box);
    CallAlongside(o, w);
    var w1 := Open(o, w, box).0;
    CallAlongside(o, w1);
    AlongsideJoins(o, w.server, w.turn, w1.turn, w1.turn + 1);
    hide Arrive, Open, Alongside;
  }

  /** An upsert of a message whose key is there, failing or not, leaves the server to the other clients. */
  lemma PresentIsNotAppended(oT: Oracle, w: World, box: string, raw: Raw, keywords: seq<Keyword>)
    requires Inv(w.server) && SparingTurns(oT, w.turn, Upsert(oT, w, box, raw, keywords).0.turn, box)
    requires ExtractMessageId(raw.headerId).Some? ==>
               CopyUids(w.server, box, NormaliseKey(ExtractMessageId(raw.headerId).value)) != {}
    ensures var w' := Upsert(oT, w, box, raw, keywords).0;
            w.turn <= w'.turn && w'.server == Alongside(oT, w.server, w.turn, w'.turn)
  {
    AttachKeeps(oT, w);
    UpsertTurns(oT, w, box, raw, keywords);
    hide Attach, Find, UidValidityOf, Append, AppendFlags, Inv, ExtractMessageId, NormaliseKey, CopyUids, Sparing;
    var w0, id := Attach(oT, w), ExtractMessageId(raw.headerId);
    if id.None? { return; }
    var (w1, existing) := Find(oT, w0, box, id.value);
    FindAlongside(oT, w0, box, id.value);
    if existing.Err? { return; }
    FoundWherePresent(oT, w0, box, id.value);
    var w2 := UidValidityOf(oT, w1, box).0;
    VersionAlongside(oT, w1, box);
    AlongsideJoins(oT, w.server, w.turn, w1.turn, w2.turn);
  }

  lemma VersionAlongside(o: Oracle, w: World, box: string)
    ensures var w' := UidValidityOf(o, w, box).0;
            w'.turn == w.turn + 1 && w'.server == Alongside(o, w.server, w.turn, w'.turn)
  {
    OpenArrives(o, w, box);
    CallAlongside(o, w);
    hide Open, Arrive, Alongside;
  }

  lemma FoundWherePresent(o: Oracle, w: World, box: string, naturalKey: string)
    requires Inv(w.server) && CopyUids(w.server, box, NormaliseKey(naturalKey)) != {}
    requires SparingTurns(o, w.turn, Find(o, w, box, naturalKey).0.turn, box)
    ensures var r := Find(o, w, box, naturalKey).1; r.Ok? ==> r.value.Some?
  {
    FindAlongside(o, w, box, naturalKey);
    FindAnswers(o, w, box, naturalKey);
    AlongsideSpares(o, w.server, w.turn, Find(o, w, box, naturalKey).0.turn, box, NormaliseKey(naturalKey));
    hide Find, Inv, NormaliseKey, HasKey, Alongside;
  }

  /** The listed message's key, if it has one, is found by the writer and has a copy on the target. */
  predicate HasCopy(s0: Server, t: Server, folder: string, v: nat, item: Item, box: string) {
    var h := Handle(folder, v, UidOf(item));
    h in s0.named && (Keyed(s0.named[h]) ==> Faithful(s0.named[h]) && CopyUids(t, box, KeyOf(s0.named[h])) != {})
  }

  lemma HasCopyStays(oT: Oracle, s0: Server, s: Server, from: nat, to: nat, folder: string, v: nat, item: Item, box: string)
    requires Inv(s) && SparingTurns(oT, from, to, box) && HasCopy(s0, s, folder, v, item, box)
    ensures HasCopy(s0, Alongside(oT, s, from, to), folder, v, item, box)
  {
    hide UidOf, Inv, CopyUids, Alongside, KeyOf, Keyed, Faithful;
    var raw := s0.named[Handle(folder, v, UidOf(item))];
    if Keyed(raw) { AlongsideSpares(oT, s, from, to, box, KeyOf(raw)); }
  }

  lemma CopyIsWriters(s0: Server, t: Server, folder: string, v: nat, item: Item, box: string)
    requires HasCopy(s0, t, folder, v, item, box) && Keyed(s0.named[Handle(folder, v, UidOf(item))])
    ensures var id := ExtractMessageId(s0.named[Handle(folder, v, UidOf(item))].headerId);
            id.Some? ==> CopyUids(t, box, NormaliseKey(id.value)) != {}
  {
    hide CopyUids, NormaliseKey, ExtractMessageId, UidOf, KeyOf, Faithful;
    var raw := s0.named[Handle(folder, v, UidOf(item))];
    if ExtractMessageId(raw.headerId).Some? { WriterKey(raw); }
  }

  /** One item whose message is on the target already. */
  lemma IdleOne(oS: Oracle, oT: Oracle, src: World, tgt: World, item: Item, folder: string, box: string, s0: Server, v: nat)
    requires Inv(s0) && Inv(src.server) && Later(s0, src.server) && Inv(tgt.server)
    requires folder in s0.boxes && s0.boxes[folder].validity == v
    requires ListedFrom(s0, folder, v, item) && item.messageId != "" && HasCopy(s0, tgt.server, folder, v, item, box)
    requires Fetch(oS, src, item).1.Ok? && Undivided(s0, Fetch(oS, src, item).0.server, folder)
    requires SparingTurns(oT, tgt.turn, Upsert(oT, tgt, box, Fetch(oS, src, item).1.value, item.keywords).0.turn, box)
    ensures var t1 := Upsert(oT, tgt, box, Fetch(oS, src, item).1.value, item.keywords).0;
            tgt.turn <= t1.turn && t1.server == Alongside(oT, tgt.server, tgt.turn, t1.turn)
  {
    ListedFromNamed(s0, folder, v, item);
    FetchBringsTheListed(oS, src, s0, item, v);
    CopyIsWriters(s0, tgt.server, folder, v, item, box);
    hide *;
    PresentIsNotAppended(oT, tgt, box, Fetch(oS, src, item).1.value, item.keywords);
  }

  lemma {:induction false} CopyAllTurns(oS: Oracle, oT: Oracle, src: World, tgt: World, items: seq<Item>, box: string)
    ensures tgt.turn <= CopyAll(oS, oT, src, tgt, items, box).1.turn
    decreases |items|
  {
    hide Fetch, Upsert;
    if items != [] {
      var item := items[0];
      if item.messageId == "" {
        CopyAllTurns(oS, oT, src, tgt, items[1..], box);
      } else {
        var (s1, raw) := Fetch(oS, src, item);
        if raw.Ok? {
          var t1 := Upsert(oT, tgt, box, raw.value, item.keywords).0;
          UpsertTurns(oT, tgt, box, raw.value, item.keywords);
          CopyAllTurns(oS, oT, s1, t1, items[1..], box);
        }
      }
    }
  }

  lemma {:induction false} CopyAllIdle(oS: Oracle, oT: Oracle, src: World, tgt: World, items: seq<Item>, folder: string,
                                       box: string, s0: Server, v: nat)
    requires Inv(s0) && Inv(src.server) && Later(s0, src.server) && Inv(tgt.server)
    requires folder in s0.boxes && s0.boxes[folder].validity == v
    requires forall item :: item in items ==>
               ListedFrom(s0, folder, v, item) && HasCopy(s0, tgt.server, folder, v, item, box)
    requires Undivided(s0, CopyAll(oS, oT, src, tgt, items, box).0.server, folder)
    requires SparingTurns(oT, tgt.turn, CopyAll(oS, oT, src, tgt, items, box).1.turn, box)
    ensures var t' := CopyAll(oS, oT, src, tgt, items, box).1;
            && Inv(CopyAll(oS, oT, src, tgt, items, box).0.server)
            && Later(src.server, CopyAll(oS, oT, src, tgt, items, box).0.server)
            && t'.server == Alongside(oT, tgt.server, tgt.turn, t'.turn)
    decreases |items|
  {
    CopyAllMoves(oS, oT, src, tgt, items, box);
    CopyAllTurns(oS, oT, src, tgt, items, box);
    hide Fetch, Upsert, Inv, Later, HasCopy, ListedFrom, Undivided, Sparing, Steps;
    if items == [] { return; }
    var item, rest := items[0], items[1..];
    var (s', t', ok) := CopyAll(oS, oT, src, tgt, items, box);
    if item.messageId == "" {
      CopyAllIdle(oS, oT, src, tgt, rest, folder, box, s0, v);
      return;
    }
    var (s1, raw) := Fetch(oS, src, item);
    assert ListedFrom(s0, folder, v, item) && HasCopy(s0, tgt.server, folder, v, item, box);
    ListedFromNamed(s0, folder, v, item);
    FetchBringsTheListed(oS, src, s0, item, v);
    if raw.Err? { return; }
    var (t1, u) := Upsert(oT, tgt, box, raw.value, item.keywords);
    LaterIsTransitive(s0, src.server, s1.server);
    if u.Ok? {
      CopyAllMoves(oS, oT, s1, t1, rest, box);
      CopyAllTurns(oS, oT, s1, t1, rest, box);
    } else {
      LaterRefl(s1.server);
    }
    Between(s0, s1.server, s'.server, folder);
    IdleOne(oS, oT, src, tgt, item, folder, box, s0, v);
    if u.Ok? {
      UpsertKeeps(oT, tgt, box, raw.value, item.keywords);
      QuietIs(tgt.server, t1.server);
      forall i | i in rest ensures HasCopy(s0, t1.server, folder, v, i, box) {
        HasCopyStays(oT, s0, tgt.server, tgt.turn, t1.turn, folder, v, i, box);
      }
      CopyAllIdle(oS, oT, s1, t1, rest, folder, box, s0, v);
      AlongsideJoins(oT, tgt.server, tgt.turn, t1.turn, t'.turn);
    }
  }

  /** What copying does to the source server: nothing, but time passes. */
  lemma {:induction false} CopyAllMoves(oS: Oracle, oT: Oracle, src: World, tgt: World, items: seq<Item>, box: string)
    requires Inv(src.server)
    ensures var s' := CopyAll(oS, oT, src, tgt, items, box).0; Inv(s'.server) && Later(src.server, s'.server)
    decreases |items|
  {
    LaterRefl(src.server);
    hide Fetch, Upsert, Inv, Later;
    if items == [] { return; }
    var item, rest := items[0], items[1..];
    if item.messageId == "" {
      CopyAllMoves(oS, oT, src, tgt, rest, box);
    } else {
      var (s1, raw) := Fetch(oS, src, item);
      FetchNames(oS, src, item);
      if raw.Ok? {
        var (t1, u) := Upsert(oT, tgt, box, raw.value, item.keywords);
        if u.Ok? {
          CopyAllMoves(oS, oT, s1, t1, rest, box);
          LaterIsTransitive(src.server, s1.server, CopyAll(oS, oT, s1, t1, rest, box).0.server);
        }
      }
    }
  }

  /**
   * When everything in the source mailbox has been listed by completed passes, the writer finds
   * its ids and nobody has taken it from the target, another pass, failing or not, does nothing to
   * the target: other clients, who may do anything but expunge or recreate its mailbox, account
   * for all of it.
   */
  lemma SettledPassAppendsNothing(oS: Oracle, oT: Oracle, t0: World, p: Sync, folder: string, box: string)
    requires Good(oT, t0, p, folder, box)
    requires var l, q := ListStep(oS, p, folder).0.server, SyncPass(oS, oT, p, folder, box).0;
             && Undivided(l, q.source.server, folder)
             && (forall u :: u in l.boxes[folder].msgs ==>
                   && Handle(folder, l.boxes[folder].validity, u) in p.seen
                   && (Keyed(l.boxes[folder].msgs[u].raw) ==>
                         && Faithful(l.boxes[folder].msgs[u].raw)
                         && !LostToOthers(t0.server, p.target.server, box, KeyOf(l.boxes[folder].msgs[u].raw))))
             && SparingTurns(oT, p.target.turn, q.target.turn, box)
    ensures var t := SyncPass(oS, oT, p, folder, box).0.target;
            t.server == Alongside(oT, p.target.server, p.target.turn, t.turn)
  {
    hide CopyAll, Inv, Later, CursorInv, Advanced, CopiedOnTarget, ListSince, PassedBy, Undivided, LostToOthers;
    hide Sparing, Keyed, KeyOf, Faithful;
    var (w, r) := ListStep(oS, p, folder);
    AdvancedIs(oT, p.source.server, t0, p.target, box);
    if r.Err? { return; }
    ListingFacts(oS, p, folder);
    var v := w.server.boxes[folder].validity;
    LaterRefl(w.server);
    forall item | item in r.value.items
      ensures ListedFrom(w.server, folder, v, item) && HasCopy(w.server, p.target.server, folder, v, item, box)
    {
      ListedHasCopy(oS, oT, t0, p, folder, box, item);
    }
    hide ListStep, ListedNow, ListedFrom, HasCopy;
    CopyAllIdle(oS, oT, w, p.target, r.value.items, folder, box, w.server, v);
  }

  lemma ListedHasCopy(oS: Oracle, oT: Oracle, t0: World, p: Sync, folder: string, box: string, item: Item)
    requires Good(oT, t0, p, folder, box)
    requires ListStep(oS, p, folder).1.Ok? && item in ListStep(oS, p, folder).1.value.items
    requires var l := ListStep(oS, p, folder).0.server;
             && folder in l.boxes
             && (forall u :: u in l.boxes[folder].msgs ==>
                   && Handle(folder, l.boxes[folder].validity, u) in p.seen
                   && (Keyed(l.boxes[folder].msgs[u].raw) ==>
                         && Faithful(l.boxes[folder].msgs[u].raw)
                         && !LostToOthers(t0.server, p.target.server, box, KeyOf(l.boxes[folder].msgs[u].raw))))
    ensures var l := ListStep(oS, p, folder).0.server;
            HasCopy(l, p.target.server, folder, l.boxes[folder].validity, item, box)
  {
    ListingFacts(oS, p, folder);
    var l := ListStep(oS, p, folder).0.server;
    var v, uid := l.boxes[folder].validity, UidOf(item);
    var h := Handle(folder, v, uid);
    assert h in ListedNow(oS, p, folder);
    assert uid in l.boxes[folder].msgs;
    assert BoxInv(l, folder);
    hide ListStep, ListedNow, Inv, CursorInv, Advanced, LostToOthers, UidOf, Keyed, KeyOf, Faithful, Delivered, CopyUids;
    assert h in p.copied by {
      if h !in p.copied {
        assert PassedBy(p.source.server, h);
        PassedByStays(p.source.server, l, h);
      }
    }
    assert CopiedOnTarget(t0, p, h, box);
    AdvancedIs(oT, p.source.server, t0, p.target, box);
    var raw := l.named[h];
    if Keyed(raw) { DeliveredIsThere(t0.server, p.target.server, box, KeyOf(raw)); }
  }

  // ----- why the pass must not be divided -----

  function EmptyTarget(): Server {
    Server(["INBOX"], map["INBOX" := Mailbox(1, 1, map[], [])], 2, true, map[], map[], {})
  }

  /** Both servers before the first pass, and the source once the listing has been answered. */
  function DividedAt(raw: Raw): Sync {
    Sync(World(OneMessage(raw), 0), World(EmptyTarget(), 0), None, {}, {})
  }

  function AfterListing(raw: Raw): World {
    World(OneMessage(raw), 2, Some(Before()), 1)
  }

  function AfterFetch(raw: Raw, other: Raw): World {
    World(RaceState(raw, other), 4, Some(Selection("INBOX", 2, 2, 1)), 2)
  }

  /**
   * A fetch goes by UID alone. With the source mailbox recreated between listing and
   * fetch, the pass completes, another message is copied in the listed one's place, and
   * the listed message is not on the target.
   */
  lemma DividedPassLosesTheListed(raw: Raw, other: Raw) returns (oS: Oracle, oT: Oracle, p: Sync)
    requires Keyed(raw) && ExtractMessageId(other.headerId).Some? && !HasKey(other, KeyOf(raw))
    ensures Good(oT, p.target, p, "INBOX", "INBOX") && forall t: nat :: oT(t) == Turn([], Works)
    ensures Handle("INBOX", 1, 1) in p.source.server.named && p.source.server.named[Handle("INBOX", 1, 1)] == raw
    ensures var (q, ok) := SyncPass(oS, oT, p, "INBOX", "INBOX");
            && ok && Handle("INBOX", 1, 1) in q.seen
            && CopyUids(q.target.server, "INBOX", KeyOf(raw)) == {}
  {
    oS := (t: nat) => RaceTurn(t, other, false);
    oT := (t: nat) => Turn([], Works);
    p := DividedAt(raw);
    DividedStart(oT, raw);
    var item := DividedListing(oS, raw);
    DividedFetch(oS, raw, other, item);
    var t2 := DividedUpsert(oT, other, item.keywords, KeyOf(raw));
    DividedCopies(oS, oT, raw, other, item, t2);
    hide *;
    DividedPassIs(oS, oT, raw, AfterFetch(raw, other), item, t2);
  }

  lemma DividedStart(oT: Oracle, raw: Raw)
    ensures Good(oT, DividedAt(raw).target, DividedAt(raw), "INBOX", "INBOX")
    ensures Handle("INBOX", 1, 1) in OneMessage(raw).named && OneMessage(raw).named[Handle("INBOX", 1, 1)] == raw
  {
    OneMessageInv(raw);
    NoCursor(OneMessage(raw), "INBOX");
    EmptyTargetInv();
    AdvancedRefl(oT, OneMessage(raw), World(EmptyTarget(), 0), "INBOX");
    hide Inv, CursorInv, Advanced;
  }

  lemma DividedCopies(oS: Oracle, oT: Oracle, raw: Raw, other: Raw, item: Item, t2: World)
    requires item.messageId != ""
    requires Fetch(oS, AfterListing(raw), item) == (AfterFetch(raw, other), Ok(other))
    requires Upsert(oT, World(EmptyTarget(), 0), "INBOX", other, item.keywords).0 == t2
    requires Upsert(oT, World(EmptyTarget(), 0), "INBOX", other, item.keywords).1.Ok?
    ensures CopyAll(oS, oT, AfterListing(raw), World(EmptyTarget(), 0), [item], "INBOX")
         == (AfterFetch(raw, other), t2, true)
  {
    hide AfterListing, AfterFetch, EmptyTarget, Fetch, Upsert;
    assert [item][1..] == [];
    assert CopyAll(oS, oT, AfterFetch(raw, other), t2, [item][1..], "INBOX") == (AfterFetch(raw, other), t2, true);
  }

  lemma DividedPassIs(oS: Oracle, oT: Oracle, raw: Raw, s2: World, item: Item, t2: World)
    requires var p := DividedAt(raw);
             && ListStep(oS, p, "INBOX").0 == AfterListing(raw)
             && ListStep(oS, p, "INBOX").1.Ok? && ListStep(oS, p, "INBOX").1.value.items == [item]
             && Handle("INBOX", 1, 1) in ListedNow(oS, p, "INBOX")
    requires CopyAll(oS, oT, AfterListing(raw), World(EmptyTarget(), 0), [item], "INBOX") == (s2, t2, true)
    ensures var (q, ok) := SyncPass(oS, oT, DividedAt(raw), "INBOX", "INBOX");
            ok && Handle("INBOX", 1, 1) in q.seen && q.target == t2
  {
    hide OneMessage, EmptyTarget, AfterListing, ListStep, ListedNow, CopyAll, Undivided;
  }

  lemma EmptyTargetInv()
    ensures Inv(EmptyTarget())
  {
    assert BoxInv(EmptyTarget(), "INBOX");
  }

  /** The listing of the source's one message. */
  lemma DividedMessages(oS: Oracle, raw: Raw)
    requires oS(0) == oS(1) == Turn([], Works)
    ensures var w0, w1 := World(OneMessage(raw), 0), World(OneMessage(raw), 1, Some(Before()), 1);
            && OpenFresh(oS, w0, "INBOX") == (w1, Ok(Before()))
            && FetchListing(oS, w1, Before()) == (AfterListing(raw), Ok([(1, Message(raw, [], false))]))
  {
    hide Arrive, Steps;
    var s0 := OneMessage(raw);
    var w0, w1 := World(s0, 0), World(s0, 1, Some(Before()), 1);
    Undisturbed(oS, Reconnect(w0));
    Undisturbed(oS, w1);
    assert OpenFresh(oS, w0, "INBOX") == (w1, Ok(Before()));
    var msgs := s0.boxes["INBOX"].msgs;
    assert Listing(msgs, 1) == [] by { assert Listing(msgs, 0) == []; }
    assert Listing(msgs, 2) == [(1, Message(raw, [], false))];
  }

  lemma DividedListing(oS: Oracle, raw: Raw) returns (item: Item)
    requires oS(0) == oS(1) == Turn([], Works) && Keyed(raw)
    ensures item.messageId != "" && item.folder == "INBOX" && UidOf(item) == 1
    ensures var p := DividedAt(raw);
            && ListStep(oS, p, "INBOX").0 == AfterListing(raw)
            && ListStep(oS, p, "INBOX").1.Ok? && ListStep(oS, p, "INBOX").1.value.items == [item]
            && Handle("INBOX", 1, 1) in ListedNow(oS, p, "INBOX")
  {
    hide UidFromSourceRef, SourceRef, EncodeCursor, MaxUidNext, KeywordsOf, Unkeyable, OpenFresh, FetchListing;
    DividedMessages(oS, raw);
    var m := Message(raw, [], false);
    item := ItemOf((1, m), "INBOX");
    var listing: seq<(nat, Message)> := [(1, m)];
    assert Items(listing, None, "INBOX") == [item] by { assert Items(listing[..0], None, "INBOX") == []; }
    SourceRefRoundTrip("INBOX", 1);
  }

  lemma DividedFetch(oS: Oracle, raw: Raw, other: Raw, item: Item)
    requires oS(2) == RaceTurn(2, other, false) && oS(3) == Turn([], Works)
    requires item.folder == "INBOX" && UidOf(item) == 1
    ensures Fetch(oS, AfterListing(raw), item) == (AfterFetch(raw, other), Ok(other))
  {
    hide Arrive, UidOf, Steps;
    RaceArrives(oS, raw, other, false, Reconnect(AfterListing(raw)));
    RaceStateFacts(raw, other);
    var s := RaceState(raw, other);
    var sel := Selection("INBOX", 2, 2, 1);
    var w3 := World(s, 3, Some(sel), 2);
    assert OpenFresh(oS, AfterListing(raw), "INBOX") == (w3, Ok(sel));
    Undisturbed(oS, w3);
    assert FetchOne(oS, w3, sel, 1) == (AfterFetch(raw, other), Ok(Some(other)));
    hide OpenFresh, FetchOne, RaceState, OneMessage;
  }

  lemma DividedUpsert(oT: Oracle, other: Raw, keywords: seq<Keyword>, key: string) returns (t: World)
    requires forall i: nat :: oT(i) == Turn([], Works)
    requires ExtractMessageId(other.headerId).Some? && !HasKey(other, key)
    ensures Upsert(oT, World(EmptyTarget(), 0), "INBOX", other, keywords).0 == t
    ensures Upsert(oT, World(EmptyTarget(), 0), "INBOX", other, keywords).1.Ok?
    ensures CopyUids(t.server, "INBOX", key) == {}
  {
    hide Arrive, Steps, ExtractMessageId, NormaliseKey, HasKey, FlagsOf;
    var s, sel := EmptyTarget(), Selection("INBOX", 1, 1, 0);
    var w0, w1, w2, w3 := World(s, 0), World(s, 1, Some(sel)), World(s, 2, Some(sel)), World(s, 3, Some(sel));
    Undisturbed(oT, w0);
    Undisturbed(oT, w1);
    Undisturbed(oT, w2);
    Undisturbed(oT, w3);
    assert Attach(oT, w0) == w0;
    assert Open(oT, w0, "INBOX") == (w1, Ok(sel));
    EmptyListing(s.boxes["INBOX"].msgs, 1);
    assert FetchAll(oT, w1, sel) == (w2, Ok([]));
    assert Find(oT, w0, "INBOX", ExtractMessageId(other.headerId).value) == (w2, Ok(None));
    assert UidValidityOf(oT, w2, "INBOX") == (w3, Ok(1));
    var flags := AppendFlags(keywords);
    t := World(AddMessage(s, "INBOX", other, flags, false), 4, Some(sel));
    assert Append(oT, w3, 0, "INBOX", other, flags) == (t, Ok(Some(1)));
    hide Open, FetchAll, Find, UidValidityOf, Append, Attach;
    EmptyTargetInv();
    AddCopies(s, "INBOX", other, flags, "INBOX", key);
  }
}
