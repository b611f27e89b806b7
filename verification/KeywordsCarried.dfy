/**
 * What is written on the target, and with which flags: by one upsert, by a pass, and by any
 * number of passes, whatever fails and whoever else is at work.
 */
module KeywordsCarried {
  import opened Outcomes
  import opened ImapServer
  import opened MailConventions
  import opened MailTarget
  import opened HandleSafety
  import opened RetrySafety
  import opened MailSource
  import opened IncrementalListing
  import opened ListedItems
  import opened Convergence

  /** One message written, and with what flags. */
  datatype Write = Write(raw: Raw, flags: seq<string>)

  /** What was written, by the turn it was written in. */
  type Writes = map<nat, Write>

  /**
   * From `from` to `to` other clients did what they did, and in the turns of `writes`, and in no
   * others, this connection added that message to `box`; that makes `t` of `s`.
   */
  ghost predicate Evolves(o: Oracle, s: Server, from: nat, to: nat, box: string, writes: Writes, t: Server)
    decreases if from < to then to - from else 0
  {
    if to <= from then t == s
    else
      var arrived := Steps(s, o(from).env);
      if from in writes then
        box in arrived.boxes
        && Evolves(o, AddMessage(arrived, box, writes[from].raw, writes[from].flags, false), from + 1, to, box, writes, t)
      else Evolves(o, arrived, from + 1, to, box, writes, t)
  }

  /** The flags stand for these keywords, and for nothing else; a message without keywords is written as read. */
  predicate WrittenAs(flags: seq<string>, keywords: seq<Keyword>) {
    && KeywordsOf(flags) == (if keywords == [] then [Seen] else keywords)
    && |flags| == |KeywordsOf(flags)|
  }

  lemma FlagsWritten(keywords: seq<Keyword>)
    ensures WrittenAs(AppendFlags(keywords), keywords)
  {
    if keywords == [] {
      FlagRoundTrip([Seen]);
      assert FlagsOf([Seen]) == ["\\Seen"];
    } else {
      FlagRoundTrip(keywords);
    }
  }

  // ----- stretches of time -----

  lemma {:induction false} EvolvesAlongside(o: Oracle, s: Server, from: nat, to: nat, box: string, writes: Writes)
    requires forall t :: t in writes ==> !(from <= t < to)
    ensures Evolves(o, s, from, to, box, writes, Alongside(o, s, from, to))
    decreases if from < to then to - from else 0
  {
    hide Steps;
    if from < to { EvolvesAlongside(o, Steps(s, o(from).env), from + 1, to, box, writes); }
  }

  lemma {:induction false} EvolvesJoins(o: Oracle, s: Server, from: nat, u: Server, mid: nat, t: Server, to: nat, box: string,
                                        writes: Writes)
    requires from <= mid <= to
    requires Evolves(o, s, from, mid, box, writes, u) && Evolves(o, u, mid, to, box, writes, t)
    ensures Evolves(o, s, from, to, box, writes, t)
    decreases mid - from
  {
    hide Steps, AddMessage;
    if from < mid {
      var arrived := Steps(s, o(from).env);
      var next := if from in writes then AddMessage(arrived, box, writes[from].raw, writes[from].flags, false) else arrived;
      EvolvesJoins(o, next, from + 1, u, mid, t, to, box, writes);
    }
  }

  lemma {:induction false} EvolvesAlike(o: Oracle, s: Server, from: nat, to: nat, box: string, a: Writes, b: Writes, t: Server)
    requires Evolves(o, s, from, to, box, a, t)
    requires forall i: nat :: from <= i < to ==> (i in a <==> i in b) && (i in a ==> a[i] == b[i])
    ensures Evolves(o, s, from, to, box, b, t)
    decreases if from < to then to - from else 0
  {
    hide Steps, AddMessage;
    if from < to {
      var arrived := Steps(s, o(from).env);
      var next := if from in a then AddMessage(arrived, box, a[from].raw, a[from].flags, false) else arrived;
      EvolvesAlike(o, next, from + 1, to, box, a, b, t);
    }
  }

  // ----- one upsert -----

  lemma AppendWrites(o: Oracle, w: World, conn: nat, box: string, raw: Raw, flags: seq<string>) returns (writes: Writes)
    ensures var (w', r) := Append(o, w, conn, box, raw, flags);
            && w'.turn == w.turn + 1
            && Evolves(o, w.server, w.turn, w'.turn, box, writes, w'.server)
            && (writes == map[] || writes == map[w.turn := Write(raw, flags)])
            && (r.Ok? ==> writes != map[])
  {
    AppendTurn(o, w, conn, box, raw, flags);
    var (w', r) := Append(o, w, conn, box, raw, flags);
    var s := Arrive(o, w);
    writes := map[];
    hide Steps, AddMessage;
    if !(o(w.turn).lost || w.conn != conn || o(w.turn).fate.FailsBefore? || o(w.turn).fate.Refused? || box !in s.boxes) {
      writes := map[w.turn := Write(raw, flags)];
      assert w'.server == AddMessage(s, box, raw, flags, false);
      assert Evolves(o, w'.server, w.turn + 1, w.turn + 1, box, writes, w'.server);
    } else {
      assert w'.server == s;
      assert Evolves(o, s, w.turn + 1, w.turn + 1, box, writes, s);
    }
  }

  /**
   * Everything an upsert does to the server, whatever fails and with UIDPLUS or without: at most
   * one message is added, those bytes, with flags that stand for the keywords given, or for
   * `Seen` if none was. One was added if the answer says so, and none if it says that the
   * message was there. The rest is the other clients' doing.
   */
  lemma UpsertWrites(o: Oracle, w: World, box: string, raw: Raw, keywords: seq<Keyword>) returns (writes: Writes)
    ensures var (w', r) := Upsert(o, w, box, raw, keywords);
            && w.turn <= w'.turn
            && Evolves(o, w.server, w.turn, w'.turn, box, writes, w'.server)
            && |writes| <= 1
            && (forall t :: t in writes ==>
                  w.turn <= t < w'.turn && writes[t].raw == raw && WrittenAs(writes[t].flags, keywords))
            && (r.Ok? ==> (r.value.created <==> writes != map[]))
  {
    writes := map[];
    AttachKeeps(o, w);
    var (w', r) := Upsert(o, w, box, raw, keywords);
    hide Attach, Find, UidValidityOf, Append, Alongside, AppendFlags, ExtractMessageId, WrittenAs, Arrive, Steps;
    var w0, id := Attach(o, w), ExtractMessageId(raw.headerId);
    if id.None? { return; }
    var (w1, existing) := Find(o, w0, box, id.value);
    FindAlongside(o, w0, box, id.value);
    EvolvesAlongside(o, w.server, w.turn, w1.turn, box, map[]);
    if existing.Err? { return; }
    var (w2, version) := UidValidityOf(o, w1, box);
    VersionAlongside(o, w1, box);
    AlongsideJoins(o, w.server, w.turn, w1.turn, w2.turn);
    EvolvesAlongside(o, w.server, w.turn, w2.turn, box, map[]);
    if version.Err? || existing.value.Some? { return; }
    var flags := AppendFlags(keywords);
    FlagsWritten(keywords);
    var (w3, appended) := Append(o, w2, w0.conn, box, raw, flags);
    writes := AppendWrites(o, w2, w0.conn, box, raw, flags);
    EvolvesAlongside(o, w.server, w.turn, w2.turn, box, writes);
    EvolvesJoins(o, w.server, w.turn, w2.server, w2.turn, w3.server, w3.turn, box, writes);
    if appended.Ok? && appended.value.None? {
      FindAlongside(o, w3, box, id.value);
      EvolvesAlongside(o, w3.server, w3.turn, w'.turn, box, writes);
      EvolvesJoins(o, w.server, w.turn, w3.server, w3.turn, w'.server, w'.turn, box, writes);
    }
  }

  lemma VersionAlongside(o: Oracle, w: World, box: string)
    ensures var w' := UidValidityOf(o, w, box).0;
            w'.turn == w.turn + 1 && w'.server == Alongside(o, w.server, w.turn, w'.turn)
  {
    OpenArrives(o, w, box);
    CallAlongside(o, w);
    hide Arrive, Open, Alongside;
  }

  // ----- the copying of a pass -----

  /** One of these items is of the message with this UID, has an id, and says these keywords. */
  ghost predicate IsOf(items: seq<Item>, uid: nat, flags: seq<string>) {
    exists item :: item in items && UidOf(item) == uid && item.messageId != "" && WrittenAs(flags, item.keywords)
  }

  predicate Ascending(of: map<nat, nat>) {
    forall t, u :: t in of && u in of && t < u ==> of[t] < of[u]
  }

  /** Every write is of one of these items, with the item's keywords; each item at most once, in order. */
  ghost predicate WritesOf(writes: Writes, of: map<nat, nat>, from: nat, to: nat, items: seq<Item>) {
    && of.Keys == writes.Keys
    && (forall t :: t in writes ==> t in of && from <= t < to && IsOf(items, of[t], writes[t].flags))
    && Ascending(of)
  }

  /** The bytes written are those the listed handle names. */
  ghost predicate BytesOf(writes: Writes, of: map<nat, nat>, s0: Server, folder: string, v: nat) {
    forall t :: t in writes && t in of ==>
      Handle(folder, v, of[t]) in s0.named && writes[t].raw == s0.named[Handle(folder, v, of[t])]
  }

  predicate InOrder(items: seq<Item>) {
    forall i, j :: 0 <= i < j < |items| ==> UidOf(items[i]) < UidOf(items[j])
  }

  /** The writes of the first item, if any, and then those of the rest. */
  function Joined(a: Writes, b: Writes): Writes {
    a + b
  }

  function JoinedOf(a: Writes, uid: nat, of: map<nat, nat>): map<nat, nat> {
    (map t | t in a :: uid) + of
  }

  predicate FirstWrites(a: Writes, from: nat, mid: nat, item: Item) {
    |a| <= 1 && forall t :: t in a ==> from <= t < mid && WrittenAs(a[t].flags, item.keywords)
  }

  lemma IsOfMore(items: seq<Item>, uid: nat, flags: seq<string>)
    requires items != [] && IsOf(items[1..], uid, flags)
    ensures IsOf(items, uid, flags)
    ensures InOrder(items) ==> UidOf(items[0]) < uid
  {
    hide WrittenAs, UidOf;
    var item :| item in items[1..] && UidOf(item) == uid && item.messageId != "" && WrittenAs(flags, item.keywords);
    var k :| 0 <= k < |items[1..]| && items[1..][k] == item;
    assert items[k + 1] == item;
  }

  lemma IsOfFirst(items: seq<Item>, flags: seq<string>)
    requires items != [] && items[0].messageId != "" && WrittenAs(flags, items[0].keywords)
    ensures IsOf(items, UidOf(items[0]), flags)
  {
    hide WrittenAs, UidOf;
    assert items[0] in items;
  }

  lemma JoinOrder(a: Writes, mid: nat, b: Writes, of: map<nat, nat>, uid: nat, from: nat, to: nat, items: seq<Item>)
    requires items != [] && InOrder(items) && uid == UidOf(items[0])
    requires FirstWrites(a, from, mid, items[0]) && WritesOf(b, of, mid, to, items[1..])
    ensures Ascending(JoinedOf(a, uid, of))
  {
    forall t | t in b ensures uid < of[t] { IsOfMore(items, of[t], b[t].flags); }
    hide WrittenAs, UidOf, IsOf, InOrder;
    var all := JoinedOf(a, uid, of);
    forall t, u | t in all && u in all && t < u ensures all[t] < all[u] {
      if t in a && u in a { OneKey(a, t, u); }
    }
  }

  lemma WritesJoin(a: Writes, mid: nat, b: Writes, of: map<nat, nat>, from: nat, to: nat, items: seq<Item>)
    requires items != [] && InOrder(items) && items[0].messageId != "" && from <= mid <= to
    requires FirstWrites(a, from, mid, items[0]) && WritesOf(b, of, mid, to, items[1..])
    ensures WritesOf(Joined(a, b), JoinedOf(a, UidOf(items[0]), of), from, to, items)
  {
    JoinKeys(a, mid, b, of, from, to, items);
    JoinOrder(a, mid, b, of, UidOf(items[0]), from, to, items);
    hide *;
    var writes, all := Joined(a, b), JoinedOf(a, UidOf(items[0]), of);
    forall t | t in writes ensures t in all && from <= t < to && IsOf(items, all[t], writes[t].flags) {
      JoinOne(a, mid, b, of, from, to, items, t);
    }
    WritesAre(writes, all, from, to, items);
  }

  lemma WritesAre(writes: Writes, of: map<nat, nat>, from: nat, to: nat, items: seq<Item>)
    requires of.Keys == writes.Keys && Ascending(of)
    requires forall t :: t in writes ==> t in of && from <= t < to && IsOf(items, of[t], writes[t].flags)
    ensures WritesOf(writes, of, from, to, items)
  {
    hide IsOf, Ascending;
  }

  lemma JoinOne(a: Writes, mid: nat, b: Writes, of: map<nat, nat>, from: nat, to: nat, items: seq<Item>, t: nat)
    requires items != [] && items[0].messageId != "" && from <= mid <= to
    requires FirstWrites(a, from, mid, items[0]) && WritesOf(b, of, mid, to, items[1..]) && t in Joined(a, b)
    ensures t in JoinedOf(a, UidOf(items[0]), of) && from <= t < to
    ensures IsOf(items, JoinedOf(a, UidOf(items[0]), of)[t], Joined(a, b)[t].flags)
  {
    hide WrittenAs, UidOf, IsOf, Ascending, InOrder;
    if t in b { IsOfMore(items, of[t], b[t].flags); } else { IsOfFirst(items, a[t].flags); }
  }

  lemma JoinKeys(a: Writes, mid: nat, b: Writes, of: map<nat, nat>, from: nat, to: nat, items: seq<Item>)
    requires items != [] && WritesOf(b, of, mid, to, items[1..])
    ensures JoinedOf(a, UidOf(items[0]), of).Keys == Joined(a, b).Keys
  {
    hide UidOf;
    assert b.Keys == of.Keys;
    assert (map t | t in a :: UidOf(items[0])).Keys == a.Keys;
  }

  lemma JoinAlike(a: Writes, mid: nat, b: Writes, of: map<nat, nat>, from: nat, to: nat, item: Item, rest: seq<Item>)
    requires FirstWrites(a, from, mid, item) && WritesOf(b, of, mid, to, rest)
    ensures forall t: nat :: from <= t < mid ==> (t in a <==> t in Joined(a, b)) && (t in a ==> a[t] == Joined(a, b)[t])
    ensures forall t: nat :: mid <= t < to ==> (t in b <==> t in Joined(a, b)) && (t in b ==> b[t] == Joined(a, b)[t])
  {
    hide WrittenAs, UidOf;
  }

  lemma OneKey(a: Writes, t: nat, u: nat)
    requires |a| <= 1 && t in a && u in a
    ensures t == u
  {
    if t != u {
      assert {t, u} <= a.Keys;
      SubsetSize({t, u}, a.Keys);
    }
  }

  lemma SkipFirst(writes: Writes, of: map<nat, nat>, from: nat, to: nat, items: seq<Item>)
    requires items != [] && WritesOf(writes, of, from, to, items[1..])
    ensures WritesOf(writes, of, from, to, items)
  {
    hide IsOf, Ascending;
    forall t | t in writes ensures IsOf(items, of[t], writes[t].flags) { IsOfMore(items, of[t], writes[t].flags); }
  }

  lemma BytesJoin(a: Writes, b: Writes, of: map<nat, nat>, uid: nat, s0: Server, folder: string, v: nat, raw: Raw)
    requires forall t :: t in a ==> a[t].raw == raw
    requires Handle(folder, v, uid) in s0.named && raw == s0.named[Handle(folder, v, uid)]
    requires BytesOf(b, of, s0, folder, v) && b.Keys == of.Keys
    ensures BytesOf(Joined(a, b), JoinedOf(a, uid, of), s0, folder, v)
  {
  }

  /** What copying these items made of the target. */
  ghost predicate Copied(oT: Oracle, tgt: World, t1: World, items: seq<Item>, box: string, writes: Writes, of: map<nat, nat>) {
    && tgt.turn <= t1.turn && Evolves(oT, tgt.server, tgt.turn, t1.turn, box, writes, t1.server)
    && WritesOf(writes, of, tgt.turn, t1.turn, items)
  }

  lemma CopiedNothing(oT: Oracle, tgt: World, items: seq<Item>, box: string, s0: Server, folder: string, v: nat)
    ensures Copied(oT, tgt, tgt, items, box, map[], map[]) && BytesOf(map[], map[], s0, folder, v)
  {
  }

  lemma CopiedJoin(oT: Oracle, tgt: World, t1: World, t2: World, items: seq<Item>, box: string, a: Writes, b: Writes,
                   of: map<nat, nat>)
    requires items != [] && InOrder(items) && items[0].messageId != "" && tgt.turn <= t1.turn
    requires FirstWrites(a, tgt.turn, t1.turn, items[0])
    requires Evolves(oT, tgt.server, tgt.turn, t1.turn, box, a, t1.server)
    requires Copied(oT, t1, t2, items[1..], box, b, of)
    ensures Copied(oT, tgt, t2, items, box, Joined(a, b), JoinedOf(a, UidOf(items[0]), of))
  {
    hide Evolves, WritesOf, FirstWrites, Joined, JoinedOf, UidOf;
    WritesJoin(a, t1.turn, b, of, tgt.turn, t2.turn, items);
    JoinAlike(a, t1.turn, b, of, tgt.turn, t2.turn, items[0], items[1..]);
    var writes := Joined(a, b);
    EvolvesAlike(oT, tgt.server, tgt.turn, t1.turn, box, a, writes, t1.server);
    EvolvesAlike(oT, t1.server, t1.turn, t2.turn, box, b, writes, t2.server);
    EvolvesJoins(oT, tgt.server, tgt.turn, t1.server, t1.turn, t2.server, t2.turn, box, writes);
  }

  lemma CopiedSkips(oT: Oracle, tgt: World, t1: World, items: seq<Item>, box: string, writes: Writes, of: map<nat, nat>)
    requires items != [] && Copied(oT, tgt, t1, items[1..], box, writes, of)
    ensures Copied(oT, tgt, t1, items, box, writes, of)
  {
    hide Evolves;
    SkipFirst(writes, of, tgt.turn, t1.turn, items);
    hide WritesOf;
  }

  lemma CopiedKeys(oT: Oracle, tgt: World, t1: World, items: seq<Item>, box: string, writes: Writes, of: map<nat, nat>)
    requires Copied(oT, tgt, t1, items, box, writes, of)
    ensures of.Keys == writes.Keys
  {
    hide Evolves;
  }

  lemma {:induction false} CopyAllWrites(oS: Oracle, oT: Oracle, src: World, tgt: World, items: seq<Item>, folder: string,
                                         box: string, s0: Server, v: nat) returns (writes: Writes, of: map<nat, nat>)
    requires Inv(s0) && Inv(src.server) && Later(s0, src.server) && folder in s0.boxes && s0.boxes[folder].validity == v
    requires forall item :: item in items ==> ListedFrom(s0, folder, v, item)
    requires InOrder(items)
    ensures var (s1, t1, ok) := CopyAll(oS, oT, src, tgt, items, box);
            && Copied(oT, tgt, t1, items, box, writes, of)
            && (Undivided(s0, s1.server, folder) ==> BytesOf(writes, of, s0, folder, v))
    decreases |items|
  {
    writes, of := map[], map[];
    CopiedNothing(oT, tgt, items, box, s0, folder, v);
    hide Fetch, Upsert, Inv, Later, Undivided, Evolves, Copied, BytesOf, WrittenAs, UidOf, ListedFrom, Joined, JoinedOf;
    if items == [] { return; }
    var item, rest := items[0], items[1..];
    var (s', t', ok) := CopyAll(oS, oT, src, tgt, items, box);
    ListedFromNamed(s0, folder, v, item);
    if item.messageId == "" {
      writes, of := CopyAllWrites(oS, oT, src, tgt, rest, folder, box, s0, v);
      CopiedSkips(oT, tgt, t', items, box, writes, of);
      return;
    }
    var (s1, raw) := Fetch(oS, src, item);
    FetchBringsTheListed(oS, src, s0, item, v);
    if raw.Err? { return; }
    var (t1, u) := Upsert(oT, tgt, box, raw.value, item.keywords);
    var a := UpsertWrites(oT, tgt, box, raw.value, item.keywords);
    LaterIsTransitive(s0, src.server, s1.server);
    CopiedNothing(oT, t1, rest, box, s0, folder, v);
    LaterRefl(s1.server);
    var b: Writes, ofB: map<nat, nat> := map[], map[];
    if u.Ok? {
      b, ofB := CopyAllWrites(oS, oT, s1, t1, rest, folder, box, s0, v);
      CopyAllMoves(oS, oT, s1, t1, rest, box);
    }
    writes, of := Joined(a, b), JoinedOf(a, UidOf(item), ofB);
    CopiedJoin(oT, tgt, t1, t', items, box, a, b, ofB);
    if Undivided(s0, s'.server, folder) {
      Between(s0, s1.server, s'.server, folder);
      CopiedKeys(oT, t1, t', rest, box, b, ofB);
      BytesJoin(a, b, ofB, UidOf(item), s0, folder, v, raw.value);
    }
  }

  // ----- a pass -----

  predicate HasId(raw: Raw) {
    raw.envelopeId.Some? && raw.envelopeId.value != ""
  }

  /** The write is of the message with this UID in the mailbox as it was listed: one with an id, marked as it is. */
  predicate WriteOf(write: Write, uid: nat, m: Mailbox, cursor: Option<string>) {
    && uid in m.msgs && AtOrPast(uid, cursor, m.validity) && HasId(m.msgs[uid].raw)
    && WrittenAs(write.flags, KeywordsOf(m.msgs[uid].flags))
  }

  /** Every write of a pass is of a message listed in this mailbox, no message twice; and, if asked for, its bytes. */
  ghost predicate PassWrote(writes: Writes, of: map<nat, nat>, m: Mailbox, cursor: Option<string>, bytes: bool) {
    && of.Keys == writes.Keys
    && (forall t, u :: t in of && u in of && t < u ==> of[t] < of[u])
    && (forall t :: t in writes ==> t in of && WriteOf(writes[t], of[t], m, cursor))
    && (bytes ==> forall t :: t in writes && t in of && of[t] in m.msgs ==> writes[t].raw == m.msgs[of[t]].raw)
  }

  lemma DescribedIsListed(s: Server, folder: string, uid: nat, item: Item)
    requires Inv(s) && folder in s.boxes && uid in s.boxes[folder].msgs
    requires Describes(item, folder, uid, s.boxes[folder].msgs[uid])
    ensures ListedFrom(s, folder, s.boxes[folder].validity, item) && UidOf(item) == uid
    ensures item.messageId != "" ==> HasId(s.boxes[folder].msgs[uid].raw)
    ensures item.keywords == KeywordsOf(s.boxes[folder].msgs[uid].flags)
    ensures s.named[Handle(folder, s.boxes[folder].validity, uid)] == s.boxes[folder].msgs[uid].raw
  {
    assert BoxInv(s, folder);
    hide Inv, UidFromSourceRef, KeywordsOf;
  }

  lemma WritesAreListed(l: Server, folder: string, cursor: Option<string>, items: seq<Item>, uids: seq<nat>,
                        writes: Writes, of: map<nat, nat>, from: nat, to: nat, bytes: bool)
    requires Inv(l) && folder in l.boxes && |items| == |uids|
    requires var m := l.boxes[folder];
             && (forall u :: u in uids <==> u in m.msgs && AtOrPast(u, cursor, m.validity))
             && (forall k :: 0 <= k < |uids| ==> uids[k] in m.msgs && Describes(items[k], folder, uids[k], m.msgs[uids[k]]))
    requires WritesOf(writes, of, from, to, items)
    requires bytes ==> BytesOf(writes, of, l, folder, l.boxes[folder].validity)
    ensures PassWrote(writes, of, l.boxes[folder], cursor, bytes)
  {
    hide Inv, Describes, WrittenAs, UidOf, AtOrPast, KeywordsOf, HasId, ListedFrom;
    var m := l.boxes[folder];
    forall t | t in writes
      ensures WriteOf(writes[t], of[t], m, cursor)
      ensures bytes ==> writes[t].raw == m.msgs[of[t]].raw
    {
      assert IsOf(items, of[t], writes[t].flags);
      var item :| item in items && UidOf(item) == of[t] && item.messageId != "" && WrittenAs(writes[t].flags, item.keywords);
      var k :| 0 <= k < |items| && items[k] == item;
      DescribedIsListed(l, folder, uids[k], item);
      assert uids[k] in uids;
    }
  }

  /**
   * Everything a pass does to the target, failing or not, and whoever else is at work on either
   * server. It adds messages and nothing else; each is written for one message of the source
   * mailbox as it was listed, with an id and not below the cursor, none of them twice; and its
   * flags stand for exactly the keywords of that message, or for `Seen` if it has none. If the
   * source mailbox was not recreated meanwhile, the bytes are that message's too.
   */
  lemma PassWrites(oS: Oracle, oT: Oracle, p: Sync, folder: string, box: string) returns (writes: Writes, of: map<nat, nat>)
    requires Inv(p.source.server)
    ensures var (q, ok) := SyncPass(oS, oT, p, folder, box);
            var l := ListStep(oS, p, folder).0.server;
            && p.target.turn <= q.target.turn
            && Evolves(oT, p.target.server, p.target.turn, q.target.turn, box, writes, q.target.server)
            && (forall t :: t in writes ==> p.target.turn <= t < q.target.turn)
            && (writes != map[] ==>
                  folder in l.boxes
                  && PassWrote(writes, of, l.boxes[folder], p.cursor, Undivided(l, q.source.server, folder)))
  {
    writes, of := map[], map[];
    assert Evolves(oT, p.target.server, p.target.turn, p.target.turn, box, writes, p.target.server);
    var (w, r) := ListStep(oS, p, folder);
    var uids, start, n := ListingAnswers(oS, p.source, folder, p.cursor);
    var f := ListSinceAnswers(oS, p.source, folder, p.cursor);
    hide ListSince, CopyAll, Inv, Later, Evolves, Undivided, AtOrPast, Describes, CursorFollows, DecodeCursor, ListedFrom;
    hide PassWrote, UidOf, HasId, WrittenAs;
    if r.Err? { return; }
    var items, v := r.value.items, w.server.boxes[folder].validity;
    forall k | 0 <= k < |items| ensures ListedFrom(w.server, folder, v, items[k]) && UidOf(items[k]) == uids[k] {
      DescribedIsListed(w.server, folder, uids[k], items[k]);
    }
    LaterRefl(w.server);
    writes, of := CopyAllWrites(oS, oT, w, p.target, items, folder, box, w.server, v);
    var (s1, t1, ok) := CopyAll(oS, oT, w, p.target, items, box);
    WritesAreListed(w.server, folder, p.cursor, items, uids, writes, of, p.target.turn, t1.turn,
                    Undivided(w.server, s1.server, folder));
    hide WritesOf, Resume;
    assert SyncPass(oS, oT, p, folder, box).0.source == s1 && SyncPass(oS, oT, p, folder, box).0.target == t1;
  }

  // ----- what is there afterwards -----

  function At(s: Server, h: Handle): Message
    requires Alive(s, h)
  {
    s.boxes[h.box].msgs[h.uid]
  }

  /** The message was there before, the same bytes with the same flags. */
  predicate WasThere(s: Server, t: Server, h: Handle)
    requires Alive(t, h)
  {
    Alive(s, h) && At(s, h).raw == At(t, h).raw && At(s, h).flags == At(t, h).flags
  }

  lemma StepBrings(s: Server, e: EnvStep, h: Handle, key: string)
    requires Inv(s) && Alive(Step(s, e), h) && HasKey(At(Step(s, e), h).raw, key)
    requires !(e.Deliver? && e.box == h.box && HasKey(e.raw, key))
    ensures WasThere(s, Step(s, e), h)
  {
    hide HasKey, Inv, FlaggedUids;
    match e
    case Deliver(b, raw, flags, deleted) =>
    case SetDeleted(b, uid, deleted) =>
    case Expunge(b) =>
    case Recreate(b, attributes) =>
  }

  lemma {:induction false} StepsBring(s: Server, env: seq<EnvStep>, h: Handle, key: string)
    requires Inv(s) && SilentOn(env, h.box, key) && Alive(Steps(s, env), h) && HasKey(At(Steps(s, env), h).raw, key)
    ensures WasThere(s, Steps(s, env), h)
    decreases |env|
  {
    hide Inv, HasKey, Later, Step, Alive;
    if env != [] {
      StepInv(s, env[0]);
      StepsBring(Step(s, env[0]), env[1..], h, key);
      StepBrings(s, env[0], h, key);
    }
  }

  lemma AddBrings(s: Server, box: string, raw: Raw, flags: seq<string>, h: Handle)
    requires Inv(s) && box in s.boxes && Alive(AddMessage(s, box, raw, flags, false), h)
    ensures var t := AddMessage(s, box, raw, flags, false);
            WasThere(s, t, h) || (h !in s.named && At(t, h).raw == raw && At(t, h).flags == flags)
  {
    assert BoxInv(s, box);
  }

  /** One of the writes of these turns put exactly this message there. */
  ghost predicate WasWritten(writes: Writes, from: nat, to: nat, m: Message) {
    exists t :: t in writes && from <= t < to && writes[t] == Write(m.raw, m.flags)
  }

  /** What is there under a key that nobody else delivers was there before, or is new and one of ours. */
  lemma {:induction false} EvolvesBrings(o: Oracle, s: Server, from: nat, to: nat, box: string, writes: Writes, t: Server,
                                         h: Handle, key: string)
    requires Inv(s) && Evolves(o, s, from, to, box, writes, t)
    requires SilentTurns(o, from, to, h.box, key) && Alive(t, h) && HasKey(At(t, h).raw, key)
    ensures WasThere(s, t, h) || (h !in s.named && WasWritten(writes, from, to, At(t, h)))
    decreases if from < to then to - from else 0
  {
    hide Inv, Later, HasKey, Steps, AddMessage, SilentOn, Alive;
    if from < to {
      var arrived := Steps(s, o(from).env);
      StepsInv(s, o(from).env);
      assert SilentOn(o(from).env, h.box, key);
      var next := arrived;
      LaterRefl(arrived);
      if from in writes {
        next := AddMessage(arrived, box, writes[from].raw, writes[from].flags, false);
        AddMessageInv(arrived, box, writes[from].raw, writes[from].flags, false);
      }
      EvolvesBrings(o, next, from + 1, to, box, writes, t, h, key);
      BroughtOn(o, s, arrived, next, from, to, box, writes, t, h, key);
    }
  }

  lemma BroughtOn(o: Oracle, s: Server, arrived: Server, next: Server, from: nat, to: nat, box: string,
                  writes: Writes, t: Server, h: Handle, key: string)
    requires Inv(s) && Inv(arrived) && Later(s, arrived) && Later(arrived, next) && from < to
    requires arrived == Steps(s, o(from).env) && SilentOn(o(from).env, h.box, key)
    requires if from in writes then
               box in arrived.boxes && next == AddMessage(arrived, box, writes[from].raw, writes[from].flags, false)
             else next == arrived
    requires Alive(t, h) && HasKey(At(t, h).raw, key)
    requires WasThere(next, t, h) || (h !in next.named && WasWritten(writes, from + 1, to, At(t, h)))
    ensures WasThere(s, t, h) || (h !in s.named && WasWritten(writes, from, to, At(t, h)))
  {
    assert h !in next.named ==> h !in s.named;
    assert h !in arrived.named ==> h !in s.named;
    hide Inv, Later, HasKey, Steps, AddMessage, SilentOn;
    if WasThere(next, t, h) {
      if from in writes { AddBrings(arrived, box, writes[from].raw, writes[from].flags, h); }
      if WasThere(arrived, t, h) {
        StepsBring(s, o(from).env, h, key);
      } else {
        assert writes[from] == Write(At(t, h).raw, At(t, h).flags);
      }
    }
  }

  /** The message is marked as one this pass listed is; and it is that one, if nothing divided the pass. */
  ghost predicate MarkedBy(oS: Oracle, oT: Oracle, p: Sync, folder: string, box: string, m: Message) {
    var l, q := ListStep(oS, p, folder).0.server, SyncPass(oS, oT, p, folder, box).0;
    && folder in l.boxes
    && exists uid :: MarkedAs(l.boxes[folder], uid, m, Undivided(l, q.source.server, folder))
  }

  predicate MarkedAs(listed: Mailbox, uid: nat, m: Message, bytes: bool) {
    && uid in listed.msgs && HasId(listed.msgs[uid].raw)
    && WrittenAs(m.flags, KeywordsOf(listed.msgs[uid].flags))
    && (bytes ==> m.raw == listed.msgs[uid].raw)
  }

  /**
   * What a pass brings to the target, under a key nobody else delivers there, carries the keywords of
   * the listed message.
   */
  lemma LandedAsMarked(oS: Oracle, oT: Oracle, p: Sync, folder: string, box: string, h: Handle, key: string)
    requires Inv(p.source.server) && Inv(p.target.server) && h.box == box
    requires var q := SyncPass(oS, oT, p, folder, box).0;
             && SilentTurns(oT, p.target.turn, q.target.turn, box, key)
             && Alive(q.target.server, h) && HasKey(At(q.target.server, h).raw, key)
    ensures var q := SyncPass(oS, oT, p, folder, box).0;
            || WasThere(p.target.server, q.target.server, h)
            || (h !in p.target.server.named && MarkedBy(oS, oT, p, folder, box, At(q.target.server, h)))
  {
    var q := SyncPass(oS, oT, p, folder, box).0;
    var writes, of := PassWrites(oS, oT, p, folder, box);
    hide SyncPass, ListStep, Inv, Evolves, Undivided, WrittenAs, HasId, HasKey, SilentTurns, AtOrPast;
    EvolvesBrings(oT, p.target.server, p.target.turn, q.target.turn, box, writes, q.target.server, h, key);
    if !WasThere(p.target.server, q.target.server, h) {
      var m := At(q.target.server, h);
      var t :| t in writes && p.target.turn <= t < q.target.turn && writes[t] == Write(m.raw, m.flags);
      var l := ListStep(oS, p, folder).0.server;
      assert WriteOf(writes[t], of[t], l.boxes[folder], p.cursor);
      assert MarkedAs(l.boxes[folder], of[t], m, Undivided(l, q.source.server, folder));
    }
  }

  ghost predicate MarkedByOne(oS: Oracle, oT: Oracle, start: Sync, folder: string, box: string, count: nat, m: Message) {
    exists k: nat :: k < count && MarkedBy(oS, oT, SyncPasses(oS, oT, start, folder, box, k), folder, box, m)
  }

  /**
   * Over any number of passes, crashing anywhere, from a first start: whatever is on the target
   * under a key that nobody else delivers there was there before the first pass, with the flags it
   * still has, or has come since and is marked as a message that one of the passes listed.
   */
  lemma {:induction false} PassesCarryKeywords(oS: Oracle, oT: Oracle, source: World, target: World, folder: string,
                                               box: string, count: nat, h: Handle, key: string)
    requires Inv(source.server) && Inv(target.server) && h.box == box
    requires var q := SyncPasses(oS, oT, Sync(source, target, None, {}, {}), folder, box, count);
             && SilentTurns(oT, target.turn, q.target.turn, box, key)
             && Alive(q.target.server, h) && HasKey(At(q.target.server, h).raw, key)
    ensures var start := Sync(source, target, None, {}, {});
            var q := SyncPasses(oS, oT, start, folder, box, count);
            || WasThere(target.server, q.target.server, h)
            || (h !in target.server.named && MarkedByOne(oS, oT, start, folder, box, count, At(q.target.server, h)))
  {
    hide SyncPass, Inv, Later, MarkedBy, Advanced, Good, HasKey, Alive;
    var start := Sync(source, target, None, {}, {});
    if count > 0 {
      var p := SyncPasses(oS, oT, start, folder, box, count - 1);
      var q := SyncPasses(oS, oT, start, folder, box, count);
      PassesInv(oS, oT, source, target, folder, box, count - 1);
      var writes, of := PassWrites(oS, oT, p, folder, box);
      LandedAsMarked(oS, oT, p, folder, box, h, key);
      NewThen(target.server, p.target.server, h);
      if WasThere(p.target.server, q.target.server, h) {
        PassesCarryKeywords(oS, oT, source, target, folder, box, count - 1, h, key);
        if !WasThere(target.server, p.target.server, h) {
          SameMarks(oS, oT, start, folder, box, count, At(p.target.server, h), At(q.target.server, h));
        }
      } else {
        assert MarkedBy(oS, oT, SyncPasses(oS, oT, start, folder, box, count - 1), folder, box, At(q.target.server, h));
      }
    }
  }

  lemma NewThen(s: Server, t: Server, h: Handle)
    requires Later(s, t)
    ensures h !in t.named ==> h !in s.named
  {
  }

  lemma SameMarks(oS: Oracle, oT: Oracle, start: Sync, folder: string, box: string, count: nat, a: Message, b: Message)
    requires count > 0 && a.raw == b.raw && a.flags == b.flags && MarkedByOne(oS, oT, start, folder, box, count - 1, a)
    ensures MarkedByOne(oS, oT, start, folder, box, count, b)
  {
    hide SyncPass, SyncPasses, ListStep, Undivided, WrittenAs, HasId;
    var k: nat :| k < count - 1 && MarkedBy(oS, oT, SyncPasses(oS, oT, start, folder, box, k), folder, box, a);
    var p := SyncPasses(oS, oT, start, folder, box, k);
    var l, q := ListStep(oS, p, folder).0.server, SyncPass(oS, oT, p, folder, box).0;
    var uid :| MarkedAs(l.boxes[folder], uid, a, Undivided(l, q.source.server, folder));
    assert MarkedAs(l.boxes[folder], uid, b, Undivided(l, q.source.server, folder));
    assert MarkedBy(oS, oT, p, folder, box, b);
  }

  lemma PassesInv(oS: Oracle, oT: Oracle, source: World, target: World, folder: string, box: string, count: nat)
    requires Inv(source.server) && Inv(target.server)
    ensures var q := SyncPasses(oS, oT, Sync(source, target, None, {}, {}), folder, box, count);
            && Inv(q.source.server) && Inv(q.target.server)
            && Later(target.server, q.target.server) && target.turn <= q.target.turn
  {
    PassesConverge(oS, oT, source, target, folder, box, count);
    var q := SyncPasses(oS, oT, Sync(source, target, None, {}, {}), folder, box, count);
    hide SyncPasses, Inv, Advanced, CursorInv, Later;
    AdvancedIs(oT, q.source.server, target, q.target, box);
  }
}
