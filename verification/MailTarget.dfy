/**
 * The IMAP write path: look up, append, list for reindex, remove.
 *
 * Each operation is given twice: as a function of the oracle and the world, which
 * the theorems are about, and as the method of the connector, proved equal to it.
 */
module MailTarget {
  import opened Outcomes
  import opened ImapServer
  import opened MailConventions
  import MailClient

  datatype UpsertResult = UpsertResult(uid: nat, created: bool, version: nat)

  datatype Entry = Entry(naturalKey: string, uid: nat, box: string)

  datatype Removal = NothingToRemove | Binned | Deleted

  /** What `Number(targetId)` makes of a recorded id. */
  datatype TargetId = Integer(n: int) | NotInteger

  // ----- lookup -----

  function FirstWithKey(listing: seq<(nat, Message)>, wanted: string): (r: Option<nat>)
    ensures r.Some? ==>
              exists i :: 0 <= i < |listing| && listing[i].0 == r.value && HasKey(listing[i].1.raw, wanted)
                          && forall j :: 0 <= j < i ==> !HasKey(listing[j].1.raw, wanted)
    ensures r.None? ==> forall i :: 0 <= i < |listing| ==> !HasKey(listing[i].1.raw, wanted)
  {
    if listing == [] then None
    else if HasKey(listing[0].1.raw, wanted) then
      assert listing[0].0 == listing[0].0;
      Some(listing[0].0)
    else
      var r := FirstWithKey(listing[1..], wanted);
      assert forall i :: 0 <= i < |listing[1..]| ==> listing[1..][i] == listing[i + 1];
      r
  }

  function Find(o: Oracle, w: World, box: string, naturalKey: string): (World, Result<Option<nat>>) {
    var (w1, sel) := Open(o, w, box);
    if sel.Err? then (w1, Err)
    else
      var (w2, listed) := FetchAll(o, w1, sel.value);
      if listed.Err? then (w2, Err)
      else (w2, Ok(FirstWithKey(listed.value, NormaliseKey(naturalKey))))
  }

  function UidValidityOf(o: Oracle, w: World, box: string): (World, Result<nat>) {
    var (w1, sel) := Open(o, w, box);
    (w1, if sel.Err? then Err else Ok(sel.value.validity))
  }

  // ----- writing -----

  function AppendFlags(keywords: seq<Keyword>): seq<string> {
    if keywords == [] then ["\\Seen"] else FlagsOf(keywords)
  }

  function Upsert(o: Oracle, w: World, box: string, raw: Raw, keywords: seq<Keyword>): (World, Result<UpsertResult>) {
    var w0 := Attach(o, w);
    var id := ExtractMessageId(raw.headerId);
    if id.None? then (w0, Err)
    else
      var (w1, existing) := Find(o, w0, box, id.value);
      if existing.Err? then (w1, Err)
      else
        var (w2, version) := UidValidityOf(o, w1, box);
        if version.Err? then (w2, Err)
        else if existing.value.Some? then (w2, Ok(UpsertResult(existing.value.value, false, version.value)))
        else
          var (w3, appended) := Append(o, w2, w0.conn, box, raw, AppendFlags(keywords));
          if appended.Err? then (w3, Err)
          else if appended.value.Some? then (w3, Ok(UpsertResult(appended.value.value, true, version.value)))
          else
            var (w4, rescanned) := Find(o, w3, box, id.value);
            if rescanned.Err? || rescanned.value.None? then (w4, Err)
            else (w4, Ok(UpsertResult(rescanned.value.value, true, version.value)))
  }

  // ----- reindex -----

  function EntriesOf(listing: seq<(nat, Message)>, box: string): Result<seq<Entry>> {
    if listing == [] then Ok([])
    else
      var before := EntriesOf(listing[..|listing| - 1], box);
      var (uid, m) := listing[|listing| - 1];
      if before.Err? || m.raw.envelopeId.None? || m.raw.envelopeId.value == "" then Err
      else Ok(before.value + [Entry(NormaliseKey(m.raw.envelopeId.value), uid, box)])
  }

  function EntriesIn(o: Oracle, w: World, conn: nat, box: string): (World, Result<seq<Entry>>) {
    var (w1, sel) := LockOn(o, w, conn, box);
    if sel.Err? then (w1, Err)
    else
      var (w2, listed) := FetchAll(o, w1, sel.value);
      if listed.Err? then (w2, Err) else (w2, EntriesOf(listed.value, box))
  }

  function EntriesInAll(o: Oracle, w: World, conn: nat, boxes: seq<string>): (World, Result<seq<Entry>>)
    decreases |boxes|
  {
    if boxes == [] then (w, Ok([]))
    else
      var (w1, first) := EntriesIn(o, w, conn, boxes[0]);
      if first.Err? then (w1, Err)
      else
        var (w2, rest) := EntriesInAll(o, w1, conn, boxes[1..]);
        if rest.Err? then (w2, Err) else (w2, Ok(first.value + rest.value))
  }

  function Paths(listed: seq<(string, seq<string>)>): seq<string> {
    seq(|listed|, i requires 0 <= i < |listed| => listed[i].0)
  }

  /** The mailboxes a reindex enumerates. */
  function BoxesToList(o: Oracle, w: World, mailboxId: Option<string>): (World, Result<seq<string>>) {
    if mailboxId.Some? && mailboxId.value != "" then (w, Ok([mailboxId.value]))
    else
      var (w1, listed) := ListBoxes(o, w);
      if listed.Err? then (w1, Err)
      else (w1, Ok(if |listed.value| == 0 then ["INBOX"] else Paths(listed.value)))
  }

  function ListEntries(o: Oracle, w: World, mailboxId: Option<string>): (World, Result<seq<Entry>>) {
    var w0 := Attach(o, w);
    var (w1, boxes) := BoxesToList(o, w0, mailboxId);
    if boxes.Err? then (w1, Err) else EntriesInAll(o, w1, w0.conn, boxes.value)
  }

  // ----- removal -----

  function FirstTrash(listed: seq<(string, seq<string>)>): Option<string> {
    if listed == [] then None
    else if IsTrash(listed[0].1) then Some(listed[0].0)
    else FirstTrash(listed[1..])
  }

  function FindBin(o: Oracle, w: World): (World, Result<Option<string>>) {
    var (w1, listed) := ListBoxes(o, w);
    if listed.Err? then (w1, Err) else (w1, Ok(FirstTrash(listed.value)))
  }

  function UidExists(o: Oracle, w: World, box: string, uid: nat): (World, Result<bool>) {
    var (w1, sel) := Open(o, w, box);
    if sel.Err? then (w1, Err) else Search(o, w1, sel.value, uid)
  }

  /** The read-back after a removal: an answer that the message is still there is a failure. */
  function VerifyGone(o: Oracle, w: World, box: string, uid: nat, kind: Removal): (World, Result<Removal>) {
    var (w1, there) := UidExists(o, w, box, uid);
    (w1, if there.Err? || there.value then Err else Ok(kind))
  }

  function MoveToBin(o: Oracle, w: World, conn: nat, box: string, uid: nat, bin: string): (World, Result<Removal>) {
    var (w1, sel) := LockOn(o, w, conn, box);
    if sel.Err? then (w1, Err)
    else
      var (w2, moved) := Move(o, w1, sel.value, uid, bin);
      if moved.Err? || !moved.value then (w2, Err) else VerifyGone(o, w2, box, uid, Binned)
  }

  function ExpungeOne(o: Oracle, w: World, conn: nat, box: string, uid: nat): (World, Result<Removal>) {
    if !w.server.uidplus then (w, Err)
    else
      var (w1, sel) := LockOn(o, w, conn, box);
      if sel.Err? then (w1, Err)
      else
        var (w2, deleted) := Delete(o, w1, sel.value, uid);
        if deleted.Err? || !deleted.value then (w2, Err) else VerifyGone(o, w2, box, uid, Deleted)
  }

  /** The part of a removal that follows once the handle has been found good. */
  function RemovePresent(o: Oracle, w: World, conn: nat, box: string, uid: nat): (World, Result<Removal>) {
    var (w1, bin) := FindBin(o, w);
    if bin.Err? then (w1, Err)
    else if bin.value.Some? && bin.value.value != "" && bin.value.value != box then
      MoveToBin(o, w1, conn, box, uid, bin.value.value)
    else ExpungeOne(o, w1, conn, box, uid)
  }

  function RemoveItem(o: Oracle, w: World, id: TargetId, expected: Option<nat>, collection: Option<string>):
      (World, Result<Removal>) {
    var w0 := Attach(o, w);
    if collection.None? || collection.value == "" then (w0, Err)
    else if id.NotInteger? || id.n <= 0 then (w0, Err)
    else
      var box, uid: nat := collection.value, id.n;
      var (w1, validity) := UidValidityOf(o, w0, box);
      if validity.Err? then (w1, Err)
      else if expected.Some? && expected.value != validity.value then (w1, Err)
      else
        var (w2, there) := UidExists(o, w1, box, uid);
        if there.Err? then (w2, Err)
        else if !there.value then (w2, Ok(NothingToRemove))
        else RemovePresent(o, w2, w0.conn, box, uid)
  }

  // ----- what a call may do to the server -----

  /** Between `s` and `t` this connection removed the message `h` names, or flagged it \Deleted. */
  predicate Touched(s: Server, t: Server, h: Handle) {
    (Taken(t, h, Ours) && !Taken(s, h, Ours)) || (h in t.flagged && h !in s.flagged)
  }

  /** `t` is a later state of `s`, and this connection touched no message but those in `mine`. */
  ghost predicate Progress(s: Server, t: Server, mine: iset<Handle>) {
    && Inv(s) && Inv(t) && Later(s, t)
    && (forall h :: Touched(s, t, h) ==> h in mine)
  }

  lemma ProgressTrans(s: Server, t: Server, u: Server, mine: iset<Handle>)
    requires Progress(s, t, mine) && Progress(t, u, mine)
    ensures Progress(s, u, mine)
  {
    LaterIsTransitive(s, t, u);
  }

  lemma ProgressRefl(s: Server, mine: iset<Handle>)
    requires Inv(s)
    ensures Progress(s, s, mine)
  {
    hide Inv;
  }

  lemma ArriveProgress(o: Oracle, w: World, mine: iset<Handle>)
    requires Inv(w.server)
    ensures Progress(w.server, Arrive(o, w), mine)
  {
    StepsInv(w.server, o(w.turn).env);
    StepsAreOthers(w.server, o(w.turn).env);
  }

  lemma OpenKeeps(o: Oracle, w: World, box: string)
    requires Inv(w.server)
    ensures Progress(w.server, Open(o, w, box).0.server, iset{})
  {
    ArriveProgress(o, w, iset{});
    OpenArrives(o, w, box);
  }

  lemma OpenArrives(o: Oracle, w: World, box: string)
    ensures Open(o, w, box).0.server == Arrive(o, w) && Open(o, w, box).0.turn == w.turn + 1
  {
  }

  lemma LockOnKeeps(o: Oracle, w: World, conn: nat, box: string)
    requires Inv(w.server)
    ensures Progress(w.server, LockOn(o, w, conn, box).0.server, iset{})
  {
    ArriveProgress(o, w, iset{});
  }

  lemma FetchAllKeeps(o: Oracle, w: World, sel: Selection)
    requires Inv(w.server)
    ensures Progress(w.server, FetchAll(o, w, sel).0.server, iset{})
  {
    ArriveProgress(o, w, iset{});
  }

  lemma FindKeeps(o: Oracle, w: World, box: string, key: string)
    requires Inv(w.server)
    ensures Progress(w.server, Find(o, w, box, key).0.server, iset{})
  {
    var (w1, sel) := Open(o, w, box);
    OpenKeeps(o, w, box);
    if sel.Ok? {
      FetchAllKeeps(o, w1, sel.value);
      ProgressTrans(w.server, w1.server, FetchAll(o, w1, sel.value).0.server, iset{});
    }
  }

  lemma UidValidityKeeps(o: Oracle, w: World, box: string)
    requires Inv(w.server)
    ensures Progress(w.server, UidValidityOf(o, w, box).0.server, iset{})
  {
    OpenKeeps(o, w, box);
  }

  lemma UidExistsKeeps(o: Oracle, w: World, box: string, uid: nat)
    requires Inv(w.server)
    ensures Progress(w.server, UidExists(o, w, box, uid).0.server, iset{})
  {
    var (w1, sel) := Open(o, w, box);
    OpenKeeps(o, w, box);
    if sel.Ok? {
      ArriveProgress(o, w1, iset{});
      ProgressTrans(w.server, w1.server, Arrive(o, w1), iset{});
    }
  }

  lemma AddMessageProgress(s: Server, b: string, raw: Raw, flags: seq<string>, deleted: bool)
    requires Inv(s) && b in s.boxes
    ensures Progress(s, AddMessage(s, b, raw, flags, deleted), iset{})
  {
    AddMessageInv(s, b, raw, flags, deleted);
    hide Inv, Later;
  }

  lemma AppendKeeps(o: Oracle, w: World, conn: nat, box: string, raw: Raw, flags: seq<string>)
    requires Inv(w.server)
    ensures Progress(w.server, Append(o, w, conn, box, raw, flags).0.server, iset{})
  {
    hide Arrive, AddMessage, Inv, Later;
    ArriveProgress(o, w, iset{});
    var s := Arrive(o, w);
    if box in s.boxes {
      AddMessageProgress(s, box, raw, flags, false);
      ProgressTrans(w.server, s, AddMessage(s, box, raw, flags, false), iset{});
    }
  }

  lemma UpsertKeeps(o: Oracle, w: World, box: string, raw: Raw, keywords: seq<Keyword>)
    requires Inv(w.server)
    ensures Progress(w.server, Upsert(o, w, box, raw, keywords).0.server, iset{})
  {
    hide Find, UidValidityOf, Append, Inv, Later;
    ProgressRefl(w.server, iset{});
    var w0 := Attach(o, w);
    var id := ExtractMessageId(raw.headerId);
    if id.Some? {
      var (w1, existing) := Find(o, w0, box, id.value);
      FindKeeps(o, w0, box, id.value);
      if existing.Ok? {
        var (w2, version) := UidValidityOf(o, w1, box);
        UidValidityKeeps(o, w1, box);
        ProgressTrans(w.server, w1.server, w2.server, iset{});
        if version.Ok? && existing.value.None? {
          var (w3, appended) := Append(o, w2, w0.conn, box, raw, AppendFlags(keywords));
          AppendKeeps(o, w2, w0.conn, box, raw, AppendFlags(keywords));
          ProgressTrans(w.server, w2.server, w3.server, iset{});
          if appended.Ok? && appended.value.None? {
            FindKeeps(o, w3, box, id.value);
            ProgressTrans(w.server, w3.server, Find(o, w3, box, id.value).0.server, iset{});
          }
        }
      }
    }
  }

  lemma EntriesInKeeps(o: Oracle, w: World, conn: nat, box: string)
    requires Inv(w.server)
    ensures Progress(w.server, EntriesIn(o, w, conn, box).0.server, iset{})
  {
    hide LockOn, FetchAll, EntriesOf, Inv, Later, Touched;
    var (w1, sel) := LockOn(o, w, conn, box);
    LockOnKeeps(o, w, conn, box);
    if sel.Ok? {
      FetchAllKeeps(o, w1, sel.value);
      ProgressTrans(w.server, w1.server, FetchAll(o, w1, sel.value).0.server, iset{});
    }
  }

  lemma {:induction false} EntriesInAllKeeps(o: Oracle, w: World, conn: nat, boxes: seq<string>)
    requires Inv(w.server)
    ensures Progress(w.server, EntriesInAll(o, w, conn, boxes).0.server, iset{})
    decreases |boxes|
  {
    hide EntriesIn, Inv, Later, Touched;
    ProgressRefl(w.server, iset{});
    if boxes != [] {
      var (w1, first) := EntriesIn(o, w, conn, boxes[0]);
      EntriesInKeeps(o, w, conn, boxes[0]);
      EntriesInAllKeeps(o, w1, conn, boxes[1..]);
      ProgressTrans(w.server, w1.server, EntriesInAll(o, w1, conn, boxes[1..]).0.server, iset{});
    }
  }

  /** An index read removes and flags nothing. */
  lemma ListEntriesKeeps(o: Oracle, w: World, mailboxId: Option<string>)
    requires Inv(w.server)
    ensures Inv(ListEntries(o, w, mailboxId).0.server) && Later(w.server, ListEntries(o, w, mailboxId).0.server)
    ensures Progress(w.server, ListEntries(o, w, mailboxId).0.server, iset{})
  {
    var w0 := Attach(o, w);
    var (w1, boxes) := BoxesToList(o, w0, mailboxId);
    assert w1.server == w.server || w1.server == Arrive(o, w);
    ArriveProgress(o, w, iset{});
    ProgressRefl(w.server, iset{});
    hide BoxesToList, EntriesInAll, Arrive, Inv, Later, Touched;
    if boxes.Ok? {
      EntriesInAllKeeps(o, w1, w0.conn, boxes.value);
      ProgressTrans(w.server, w1.server, EntriesInAll(o, w1, w0.conn, boxes.value).0.server, iset{});
    }
  }

  // ----- the connector -----

  class ImapFlowDavMailTarget {
    const client: MailClient.Client

    constructor (client: MailClient.Client)
      ensures this.client == client
    {
      this.client := client;
    }

    method FindByNaturalKey(box: string, naturalKey: string) returns (r: Result<Option<nat>>)
      modifies client
      ensures (client.world, r) == Find(client.oracle, old(client.world), box, naturalKey)
    {
      var wanted := NormaliseKey(naturalKey);
      var sel := client.GetMailboxLock(box);
      if sel.Err? { return Err; }
      var listed := client.FetchAll(sel.value);
      if listed.Err? { return Err; }
      var messages := listed.value;
      for i := 0 to |messages|
        invariant FirstWithKey(messages, wanted) == FirstWithKey(messages[i..], wanted)
      {
        var found := messages[i].1.raw.envelopeId;
        assert messages[i..][0] == messages[i] && messages[i..][1..] == messages[i + 1..];
        if found.Some? && NormaliseKey(found.value) == wanted {
          return Ok(Some(messages[i].0));
        }
      }
      assert messages[|messages|..] == [];
      return Ok(None);
    }

    method UidValidity(box: string) returns (r: Result<nat>)
      modifies client
      ensures (client.world, r) == UidValidityOf(client.oracle, old(client.world), box)
    {
      var sel := client.GetMailboxLock(box);
      r := if sel.Err? then Err else Ok(sel.value.validity);
    }

    method UpsertEmail(box: string, raw: Raw, keywords: seq<Keyword>) returns (r: Result<UpsertResult>)
      modifies client
      ensures (client.world, r) == Upsert(client.oracle, old(client.world), box, raw, keywords)
    {
      hide Find, UidValidityOf, Append, Attach;
      var conn := client.Live();
      var messageId := ExtractMessageId(raw.headerId);
      if messageId.None? { return Err; }
      var existing := FindByNaturalKey(box, messageId.value);
      if existing.Err? { return Err; }
      var targetVersion := UidValidity(box);
      if targetVersion.Err? { return Err; }
      if existing.value.Some? {
        return Ok(UpsertResult(existing.value.value, false, targetVersion.value));
      }
      var flags: seq<string> := [];
      for i := 0 to |keywords|
        invariant flags == FlagsOf(keywords[..i])
      {
        flags := flags + [KeywordToFlag(keywords[i])];
      }
      assert keywords[..|keywords|] == keywords;
      if |flags| == 0 { flags := ["\\Seen"]; }
      var appended := client.Append(conn, box, raw, flags);
      if appended.Err? { return Err; }
      if appended.value.Some? {
        return Ok(UpsertResult(appended.value.value, true, targetVersion.value));
      }
      var rescanned := FindByNaturalKey(box, messageId.value);
      if rescanned.Err? || rescanned.value.None? { return Err; }
      return Ok(UpsertResult(rescanned.value.value, true, targetVersion.value));
    }

    method EntriesInBox(conn: nat, box: string) returns (r: Result<seq<Entry>>)
      modifies client
      ensures (client.world, r) == EntriesIn(client.oracle, old(client.world), conn, box)
    {
      hide LockOn, ImapServer.FetchAll, NormaliseKey;
      var sel := client.LockHeld(conn, box);
      if sel.Err? { return Err; }
      var listed := client.FetchAll(sel.value);
      if listed.Err? { return Err; }
      var messages := listed.value;
      var entries: seq<Entry> := [];
      for i := 0 to |messages|
        invariant EntriesOf(messages[..i], box) == Ok(entries)
      {
        var found := messages[i].1.raw.envelopeId;
        assert messages[..i + 1][..i] == messages[..i];
        if found.None? || found.value == "" {
          EntriesRefused(messages, i, box);
          return Err;
        }
        entries := entries + [Entry(NormaliseKey(found.value), messages[i].0, box)];
      }
      assert messages[..|messages|] == messages;
      return Ok(entries);
    }

    method ListAllEntries(mailboxId: Option<string>) returns (r: Result<seq<Entry>>)
      modifies client
      ensures (client.world, r) == ListEntries(client.oracle, old(client.world), mailboxId)
    {
      hide EntriesInAll, ListBoxes, Attach;
      var conn := client.Live();
      var boxes: seq<string>;
      if mailboxId.Some? && mailboxId.value != "" {
        boxes := [mailboxId.value];
      } else {
        var listed := client.List();
        if listed.Err? { return Err; }
        boxes := if |listed.value| == 0 then ["INBOX"] else Paths(listed.value);
      }
      r := EntriesInBoxes(conn, boxes);
    }

    method EntriesInBoxes(conn: nat, boxes: seq<string>) returns (r: Result<seq<Entry>>)
      modifies client
      ensures (client.world, r) == EntriesInAll(client.oracle, old(client.world), conn, boxes)
    {
      hide EntriesIn;
      var out: seq<Entry> := [];
      assert boxes[0..] == boxes;
      PrependedNothing(EntriesInAll(client.oracle, client.world, conn, boxes));
      for i := 0 to |boxes|
        invariant EntriesInAll(client.oracle, old(client.world), conn, boxes)
               == Prepended(out, EntriesInAll(client.oracle, client.world, conn, boxes[i..]))
      {
        ghost var before := client.world;
        assert boxes[i..][0] == boxes[i] && boxes[i..][1..] == boxes[i + 1..];
        var entries := EntriesInBox(conn, boxes[i]);
        if entries.Err? { return Err; }
        PrependedTwice(out, entries.value, EntriesInAll(client.oracle, client.world, conn, boxes[i + 1..]));
        assert EntriesInAll(client.oracle, before, conn, boxes[i..])
            == Prepended(entries.value, EntriesInAll(client.oracle, client.world, conn, boxes[i + 1..]));
        out := out + entries.value;
      }
      assert boxes[|boxes|..] == [];
      assert out + [] == out;
      return Ok(out);
    }

    method FindTrash() returns (r: Result<Option<string>>)
      modifies client
      ensures (client.world, r) == FindBin(client.oracle, old(client.world))
    {
      var listed := client.List();
      r := if listed.Err? then Err else Ok(FirstTrash(listed.value));
    }

    method UidIsThere(box: string, uid: nat) returns (r: Result<bool>)
      modifies client
      ensures (client.world, r) == UidExists(client.oracle, old(client.world), box, uid)
    {
      var sel := client.GetMailboxLock(box);
      if sel.Err? { return Err; }
      r := client.Search(sel.value, uid);
    }

    method VerifyIsGone(box: string, uid: nat, kind: Removal) returns (r: Result<Removal>)
      modifies client
      ensures (client.world, r) == VerifyGone(client.oracle, old(client.world), box, uid, kind)
    {
      var there := UidIsThere(box, uid);
      r := if there.Err? || there.value then Err else Ok(kind);
    }

    method Remove(targetId: TargetId, expectedTargetVersion: Option<nat>, collection: Option<string>)
        returns (r: Result<Removal>)
      modifies client
      ensures (client.world, r) == RemoveItem(client.oracle, old(client.world), targetId, expectedTargetVersion, collection)
    {
      hide Open, LockOn, UidValidityOf, UidExists, FindBin, Move, Delete, VerifyGone, Attach;
      var conn := client.Live();
      if collection.None? || collection.value == "" { return Err; }
      var mailbox := collection.value;
      if targetId.NotInteger? || targetId.n <= 0 { return Err; }
      var uid: nat := targetId.n;
      var uidValidity := UidValidity(mailbox);
      if uidValidity.Err? { return Err; }
      if expectedTargetVersion.Some? && expectedTargetVersion.value != uidValidity.value { return Err; }
      var there := UidIsThere(mailbox, uid);
      if there.Err? { return Err; }
      if !there.value { return Ok(NothingToRemove); }
      var bin := FindTrash();
      if bin.Err? { return Err; }
      if bin.value.Some? && bin.value.value != "" && bin.value.value != mailbox {
        var sel := client.LockHeld(conn, mailbox);
        if sel.Err? { return Err; }
        var moved := client.MessageMove(sel.value, uid, bin.value.value);
        if moved.Err? || !moved.value { return Err; }
        r := VerifyIsGone(mailbox, uid, Binned);
        return;
      }
      if !client.HasUidPlus() { return Err; }
      var sel := client.LockHeld(conn, mailbox);
      if sel.Err? { return Err; }
      var deleted := client.MessageDelete(sel.value, uid);
      if deleted.Err? || !deleted.value { return Err; }
      r := VerifyIsGone(mailbox, uid, Deleted);
    }
  }

  /** `out` entries already yielded, then the rest. */
  function Prepended(out: seq<Entry>, rest: (World, Result<seq<Entry>>)): (World, Result<seq<Entry>>) {
    (rest.0, if rest.1.Err? then Err else Ok(out + rest.1.value))
  }

  lemma PrependedNothing(rest: (World, Result<seq<Entry>>))
    ensures Prepended([], rest) == rest
  {
    if rest.1.Ok? { assert [] + rest.1.value == rest.1.value; }
  }

  lemma PrependedTwice(a: seq<Entry>, b: seq<Entry>, rest: (World, Result<seq<Entry>>))
    ensures Prepended(a, Prepended(b, rest)) == Prepended(a + b, rest)
  {
    if rest.1.Ok? { assert a + (b + rest.1.value) == a + b + rest.1.value; }
  }

  lemma {:induction false} EntriesRefused(messages: seq<(nat, Message)>, i: nat, box: string)
    requires i < |messages|
    requires messages[i].1.raw.envelopeId.None? || messages[i].1.raw.envelopeId.value == ""
    ensures EntriesOf(messages, box) == Err
    decreases |messages|
  {
    if i < |messages| - 1 { EntriesRefused(messages[..|messages| - 1], i, box); }
  }
}
