/**
 * An IMAP server as the connectors see it: mailboxes, UIDs, other clients, and
 * calls that may fail before or after they take effect.
 *
 * UIDs follow section 2.3.1.1 of RFC 3501: within one UIDVALIDITY they only
 * grow and are never reused; a recreated mailbox gets a fresh UIDVALIDITY.
 * `named` is the history of that promise: which message every
 * (mailbox, UIDVALIDITY, UID) was ever issued to. `taken` records who removed it.
 */
module ImapServer {
  import opened Outcomes
  import opened MailConventions

  /**
   * A message as bytes, reduced to what anybody reads out of them: the id the
   * server reports in the ENVELOPE, the text following `Message-ID:` that the
   * writer's own scan captures, and the rest.
   */
  datatype Raw = Raw(envelopeId: Option<string>, headerId: Option<string>, body: nat)

  /** The message's id, normalised, is `key`. */
  predicate HasKey(raw: Raw, key: string) {
    raw.envelopeId.Some? && NormaliseKey(raw.envelopeId.value) == key
  }

  /**
   * If the writer's own scan finds an id, the server reports one that normalises alike. The
   * scan is not anchored to a line: an earlier header that ends in `Message-ID:`, as
   * `X-Message-ID:` does, with another id makes it fail.
   */
  predicate Faithful(raw: Raw) {
    var id := ExtractMessageId(raw.headerId);
    id.Some? ==> HasKey(raw, NormaliseKey(id.value))
  }

  datatype Message = Message(raw: Raw, flags: seq<string>, deleted: bool)

  datatype Mailbox = Mailbox(validity: nat, uidNext: nat, msgs: map<nat, Message>, attributes: seq<string>)

  datatype Handle = Handle(box: string, validity: nat, uid: nat)

  datatype Actor = Ours | Others

  datatype Server = Server(
    names: seq<string>,
    boxes: map<string, Mailbox>,
    nextValidity: nat,
    uidplus: bool,
    named: map<Handle, Raw>,
    taken: map<Handle, Actor>,
    flagged: set<Handle>)

  /** One step of another client of the same account. */
  datatype EnvStep =
    | Deliver(box: string, raw: Raw, flags: seq<string>, deleted: bool)
    | SetDeleted(box: string, uid: nat, deleted: bool)
    | Expunge(box: string)
    | Recreate(box: string, attributes: seq<string>)

  /** What becomes of one remote call. */
  datatype Fate =
    | Works
    | FailsBefore       // the call throws and nothing happened
    | FailsAfter        // the call throws although it took effect
    | Refused           // the server says no, by return value
    | Lies              // MOVE or EXPUNGE answers OK and leaves the message where it was
    | HalfDone          // the message is flagged \Deleted, then the EXPUNGE is refused

  /**
   * What happens around one call: other clients first, then the call. The connection may
   * have been found broken before the operation that makes the call began (`idle`), or
   * between that and the call itself (`lost`).
   */
  datatype Turn = Turn(env: seq<EnvStep>, fate: Fate, lost: bool := false, idle: bool := false)

  type Oracle = nat -> Turn

  /** What SELECT tells: a snapshot, which later calls on the selection are bound to. */
  datatype Selection = Selection(box: string, validity: nat, uidNext: nat, count: nat)

  /** The server, how many calls have been made, what is selected, and on which connection. */
  datatype World = World(server: Server, turn: nat, open: Option<Selection> := None, conn: nat := 0)

  // ----- the invariant -----

  ghost predicate BoxInv(s: Server, b: string)
    requires b in s.boxes
  {
    var m := s.boxes[b];
    && m.validity < s.nextValidity
    && m.uidNext >= 1
    && (forall u :: u in m.msgs ==>
        && 1 <= u < m.uidNext
        && Handle(b, m.validity, u) in s.named
        && s.named[Handle(b, m.validity, u)] == m.msgs[u].raw)
    && (forall h :: h in s.named && h.box == b && h.validity == m.validity ==>
        1 <= h.uid < m.uidNext && (h.uid in m.msgs <==> h !in s.taken))
  }

  ghost predicate Inv(s: Server) {
    && (forall b :: b in s.boxes <==> b in s.names)
    && (forall i, j :: 0 <= i < j < |s.names| ==> s.names[i] != s.names[j])
    && (forall b :: b in s.boxes ==> BoxInv(s, b))
    && (forall h :: h in s.named ==> h.validity < s.nextValidity)
    && (forall h :: h in s.taken ==> h in s.named)
  }

  /** The message `h` was issued to is in its mailbox right now. */
  predicate Alive(s: Server, h: Handle) {
    h.box in s.boxes && s.boxes[h.box].validity == h.validity && h.uid in s.boxes[h.box].msgs
  }

  predicate Taken(s: Server, h: Handle, who: Actor) {
    h in s.taken && s.taken[h] == who
  }

  /** The mailbox `h` belongs to no longer has the UIDVALIDITY `h` was issued under. */
  predicate Renumbered(s: Server, h: Handle) {
    h.box !in s.boxes || s.boxes[h.box].validity != h.validity
  }

  /** `t` is a later state of the server `s`: history is only ever added to. */
  ghost predicate Later(s: Server, t: Server) {
    && s.uidplus == t.uidplus
    && s.nextValidity <= t.nextValidity
    && (forall h :: h in s.named ==> h in t.named && t.named[h] == s.named[h])
    && (forall h :: h in s.taken ==> h in t.taken && t.taken[h] == s.taken[h])
    && (forall h :: h in s.flagged ==> h in t.flagged)
    && (forall b :: b in s.boxes ==> b in t.boxes)
    && (forall b :: b in s.boxes ==>
        || t.boxes[b].validity >= s.nextValidity
        || (t.boxes[b].validity == s.boxes[b].validity && t.boxes[b].uidNext >= s.boxes[b].uidNext))
    && (forall b :: b in t.boxes && b !in s.boxes ==> t.boxes[b].validity >= s.nextValidity)
    && (forall h :: h in t.named && h !in s.named ==>
        || h.validity >= s.nextValidity
        || (h.box in s.boxes && h.validity == s.boxes[h.box].validity && h.uid >= s.boxes[h.box].uidNext))
  }

  lemma LaterRefl(s: Server)
    ensures Later(s, s)
  {
  }

  lemma LaterIsTransitive(s: Server, t: Server, u: Server)
    requires Inv(s) && Inv(t) && Later(s, t) && Later(t, u)
    ensures Later(s, u)
  {
    forall b | b in s.boxes
      ensures u.boxes[b].validity >= s.nextValidity
           || (u.boxes[b].validity == s.boxes[b].validity && u.boxes[b].uidNext >= s.boxes[b].uidNext)
    {
      assert b in t.boxes;
    }
  }

  // ----- what steps do to the state -----

  function AddMessage(s: Server, b: string, raw: Raw, flags: seq<string>, deleted: bool): (t: Server)
    requires b in s.boxes
  {
    var m := s.boxes[b];
    s.(boxes := s.boxes[b := m.(uidNext := m.uidNext + 1,
                                msgs := m.msgs[m.uidNext := Message(raw, flags, deleted)])],
       named := s.named[Handle(b, m.validity, m.uidNext) := raw])
  }

  /** Remove the messages with UIDs in `doomed` from mailbox `b`, on `who`'s account. */
  function Remove(s: Server, b: string, doomed: set<nat>, who: Actor): (t: Server)
    requires b in s.boxes
  {
    var m := s.boxes[b];
    var gone := set u | u in doomed && u in m.msgs :: Handle(b, m.validity, u);
    s.(boxes := s.boxes[b := m.(msgs := m.msgs - doomed)],
       taken := s.taken + (map h | h in gone :: who))
  }

  function Flag(s: Server, b: string, uid: nat, deleted: bool): (t: Server)
    requires b in s.boxes
  {
    var m := s.boxes[b];
    if uid !in m.msgs then s
    else s.(boxes := s.boxes[b := m.(msgs := m.msgs[uid := m.msgs[uid].(deleted := deleted)])])
  }

  /** A fresh mailbox under the name `b`, replacing the old one if there is one. */
  function Fresh(s: Server, b: string, attributes: seq<string>): (t: Server) {
    s.(names := if b in s.names then s.names else s.names + [b],
       boxes := s.boxes[b := Mailbox(s.nextValidity, 1, map[], attributes)],
       nextValidity := s.nextValidity + 1)
  }

  function FlaggedUids(m: Mailbox): set<nat> {
    set u | u in m.msgs && m.msgs[u].deleted
  }

  function Step(s: Server, e: EnvStep): (t: Server) {
    match e
    case Deliver(b, raw, flags, deleted) =>
      if b in s.boxes then AddMessage(s, b, raw, flags, deleted) else s
    case SetDeleted(b, uid, deleted) =>
      if b in s.boxes then Flag(s, b, uid, deleted) else s
    case Expunge(b) =>
      if b in s.boxes then Remove(s, b, FlaggedUids(s.boxes[b]), Others) else s
    case Recreate(b, attributes) => Fresh(s, b, attributes)
  }

  function Steps(s: Server, env: seq<EnvStep>): (t: Server)
    decreases |env|
  {
    if env == [] then s else Steps(Step(s, env[0]), env[1..])
  }

  /** The server as the call of turn `w.turn` finds it. */
  function Arrive(o: Oracle, w: World): Server {
    Steps(w.server, o(w.turn).env)
  }

  // ----- steps keep the invariant and add to history -----

  lemma AddMessageBox(s: Server, b: string, raw: Raw, flags: seq<string>, deleted: bool, c: string)
    requires Inv(s) && b in s.boxes && c in s.boxes
    ensures BoxInv(AddMessage(s, b, raw, flags, deleted), c)
  {
    assert BoxInv(s, c) && BoxInv(s, b);
    assert Handle(b, s.boxes[b].validity, s.boxes[b].uidNext) !in s.named;
  }

  lemma AddMessageLater(s: Server, b: string, raw: Raw, flags: seq<string>, deleted: bool)
    requires Inv(s) && b in s.boxes
    ensures Later(s, AddMessage(s, b, raw, flags, deleted))
  {
    assert BoxInv(s, b);
    assert Handle(b, s.boxes[b].validity, s.boxes[b].uidNext) !in s.named;
  }

  lemma BoxCounter(s: Server, b: string)
    requires Inv(s) && b in s.boxes
    ensures s.boxes[b].validity < s.nextValidity
  {
    assert BoxInv(s, b);
  }

  lemma AddMessageFrame(s: Server, b: string, raw: Raw, flags: seq<string>, deleted: bool)
    requires b in s.boxes
    ensures var t := AddMessage(s, b, raw, flags, deleted);
            && t.names == s.names && t.boxes.Keys == s.boxes.Keys && t.nextValidity == s.nextValidity && t.taken == s.taken
            && t.named.Keys == s.named.Keys + {Handle(b, s.boxes[b].validity, s.boxes[b].uidNext)}
  {
  }

  lemma AddMessageInv(s: Server, b: string, raw: Raw, flags: seq<string>, deleted: bool)
    requires Inv(s) && b in s.boxes
    ensures Inv(AddMessage(s, b, raw, flags, deleted))
    ensures Later(s, AddMessage(s, b, raw, flags, deleted))
  {
    var t := AddMessage(s, b, raw, flags, deleted);
    AddMessageLater(s, b, raw, flags, deleted);
    AddMessageFrame(s, b, raw, flags, deleted);
    BoxCounter(s, b);
    hide BoxInv, Later, AddMessage, Inv;
    forall c | c in t.boxes ensures BoxInv(t, c) { AddMessageBox(s, b, raw, flags, deleted, c); }
    StillInv(s, t, Handle(b, s.boxes[b].validity, s.boxes[b].uidNext));
  }

  /** The rules that are not about one mailbox hold with one more handle issued. */
  lemma StillInv(s: Server, t: Server, h: Handle)
    requires Inv(s) && h.validity < s.nextValidity
    requires t.names == s.names && t.boxes.Keys == s.boxes.Keys && t.nextValidity == s.nextValidity && t.taken == s.taken
    requires t.named.Keys == s.named.Keys + {h}
    requires forall c :: c in t.boxes ==> BoxInv(t, c)
    ensures Inv(t)
  {
    hide BoxInv;
    forall c ensures c in t.boxes <==> c in t.names { assert c in t.boxes <==> c in s.boxes; }
    forall g | g in t.named ensures g.validity < t.nextValidity { assert g in s.named || g == h; }
  }

  lemma RemoveInv(s: Server, b: string, doomed: set<nat>, who: Actor)
    requires Inv(s) && b in s.boxes
    ensures Inv(Remove(s, b, doomed, who))
    ensures Later(s, Remove(s, b, doomed, who))
  {
    var t := Remove(s, b, doomed, who);
    assert BoxInv(s, b);
    forall c | c in t.boxes ensures BoxInv(t, c) { assert BoxInv(s, c); }
  }

  lemma FlagBox(s: Server, b: string, uid: nat, deleted: bool, c: string)
    requires Inv(s) && b in s.boxes && c in s.boxes
    ensures BoxInv(Flag(s, b, uid, deleted), c)
  {
    assert BoxInv(s, c);
  }

  lemma FlagLater(s: Server, b: string, uid: nat, deleted: bool)
    requires b in s.boxes
    ensures Later(s, Flag(s, b, uid, deleted))
    ensures var t := Flag(s, b, uid, deleted);
            t.boxes.Keys == s.boxes.Keys && t.names == s.names && t.named == s.named && t.taken == s.taken
  {
  }

  lemma FlagInv(s: Server, b: string, uid: nat, deleted: bool)
    requires Inv(s) && b in s.boxes
    ensures Inv(Flag(s, b, uid, deleted))
    ensures Later(s, Flag(s, b, uid, deleted))
  {
    hide BoxInv, Later, Flag;
    var t := Flag(s, b, uid, deleted);
    FlagLater(s, b, uid, deleted);
    forall c | c in t.boxes ensures BoxInv(t, c) { FlagBox(s, b, uid, deleted, c); }
    forall h | h in t.named ensures h.validity < t.nextValidity { FlagCounter(s, b, uid, deleted); }
  }

  lemma FlagCounter(s: Server, b: string, uid: nat, deleted: bool)
    requires b in s.boxes
    ensures Flag(s, b, uid, deleted).nextValidity == s.nextValidity
  {
  }

  lemma FreshInv(s: Server, b: string, attributes: seq<string>)
    requires Inv(s)
    ensures Inv(Fresh(s, b, attributes))
    ensures Later(s, Fresh(s, b, attributes))
  {
    var t := Fresh(s, b, attributes);
    forall c | c in t.boxes ensures BoxInv(t, c) {
      if c != b { assert BoxInv(s, c); }
    }
  }

  lemma StepInv(s: Server, e: EnvStep)
    requires Inv(s)
    ensures Inv(Step(s, e)) && Later(s, Step(s, e))
  {
    match e
    case Deliver(b, raw, flags, deleted) => if b in s.boxes { AddMessageInv(s, b, raw, flags, deleted); }
    case SetDeleted(b, uid, deleted) => if b in s.boxes { FlagInv(s, b, uid, deleted); }
    case Expunge(b) => if b in s.boxes { RemoveInv(s, b, FlaggedUids(s.boxes[b]), Others); }
    case Recreate(b, attributes) => FreshInv(s, b, attributes);
  }

  lemma {:induction false} StepsInv(s: Server, env: seq<EnvStep>)
    requires Inv(s)
    ensures Inv(Steps(s, env)) && Later(s, Steps(s, env))
    decreases |env|
  {
    if env != [] {
      StepInv(s, env[0]);
      StepsInv(Step(s, env[0]), env[1..]);
      LaterIsTransitive(s, Step(s, env[0]), Steps(s, env));
    }
  }

  lemma StepIsOthers(s: Server, e: EnvStep, h: Handle)
    requires Taken(Step(s, e), h, Ours)
    ensures Taken(s, h, Ours)
  {
  }

  /** Other clients remove on their own account, and never set our history. */
  lemma {:induction false} StepsAreOthers(s: Server, env: seq<EnvStep>)
    ensures forall h :: Taken(Steps(s, env), h, Ours) ==> Taken(s, h, Ours)
    ensures Steps(s, env).flagged == s.flagged
    decreases |env|
  {
    if env != [] {
      var t := Step(s, env[0]);
      StepsAreOthers(t, env[1..]);
      forall h | Taken(Steps(s, env), h, Ours) ensures Taken(s, h, Ours) {
        assert Taken(Steps(t, env[1..]), h, Ours);
        StepIsOthers(s, env[0], h);
      }
    }
  }

  predicate RecreatesStep(e: EnvStep, b: string) {
    e.Recreate? && e.box == b
  }

  /** Some client deletes and recreates mailbox `b` in these steps. */
  predicate Recreates(env: seq<EnvStep>, b: string)
    decreases |env|
  {
    env != [] && (RecreatesStep(env[0], b) || Recreates(env[1..], b))
  }

  lemma StepValidity(s: Server, e: EnvStep, b: string)
    requires b in s.boxes
    ensures b in Step(s, e).boxes
    ensures Step(s, e).boxes[b].validity == if RecreatesStep(e, b) then s.nextValidity else s.boxes[b].validity
  {
  }

  /** A mailbox keeps its UIDVALIDITY exactly when nobody recreates it. */
  lemma {:induction false} ValidityKept(s: Server, env: seq<EnvStep>, b: string)
    requires Inv(s) && b in s.boxes
    ensures b in Steps(s, env).boxes
    ensures Steps(s, env).boxes[b].validity == s.boxes[b].validity <==> !Recreates(env, b)
    decreases |env|
  {
    if env != [] {
      var t := Step(s, env[0]);
      StepInv(s, env[0]);
      StepValidity(s, env[0], b);
      StepsInv(t, env[1..]);
      ValidityKept(t, env[1..], b);
      assert BoxInv(s, b);
    }
  }

  // ----- other clients over several turns -----

  /** What other clients alone make of the server in these turns. */
  function Alongside(o: Oracle, s: Server, from: nat, to: nat): Server
    decreases if from < to then to - from else 0
  {
    if to <= from then s else Alongside(o, Steps(s, o(from).env), from + 1, to)
  }

  lemma {:induction false} AlongsideJoins(o: Oracle, s: Server, from: nat, mid: nat, to: nat)
    requires from <= mid <= to
    ensures Alongside(o, Alongside(o, s, from, mid), mid, to) == Alongside(o, s, from, to)
    decreases mid - from
  {
    hide Steps;
    if from < mid { AlongsideJoins(o, Steps(s, o(from).env), from + 1, mid, to); }
  }

  lemma CallAlongside(o: Oracle, w: World)
    ensures Arrive(o, w) == Alongside(o, w.server, w.turn, w.turn + 1)
  {
    hide Steps;
    assert Alongside(o, Arrive(o, w), w.turn + 1, w.turn + 1) == Arrive(o, w);
  }

  lemma {:induction false} AlongsideKeeps(o: Oracle, s: Server, from: nat, to: nat)
    requires Inv(s)
    ensures Inv(Alongside(o, s, from, to)) && Later(s, Alongside(o, s, from, to))
    decreases if from < to then to - from else 0
  {
    hide Inv, Later, Steps;
    LaterRefl(s);
    if from < to {
      StepsInv(s, o(from).env);
      AlongsideKeeps(o, Steps(s, o(from).env), from + 1, to);
      LaterIsTransitive(s, Steps(s, o(from).env), Alongside(o, s, from, to));
    }
  }

  // ----- the calls -----

  /** A new connection, with nothing selected. */
  function Reconnect(w: World): World {
    w.(open := None, conn := w.conn + 1)
  }

  /** `live()` as an operation begins: the connection there is, or a new one if that was found broken. */
  function Attach(o: Oracle, w: World): World {
    if o(w.turn).idle then Reconnect(w) else w
  }

  /** After a call on the open connection: a broken one is replaced before anything else happens. */
  function After(o: Oracle, w: World, s: Server): World {
    var next := World(s, w.turn + 1, w.open, w.conn);
    if o(w.turn).lost then Reconnect(next) else next
  }

  /** A mailbox in the order FETCH reports it: ascending UID, those below `below`. */
  function Listing(msgs: map<nat, Message>, below: nat): (r: seq<(nat, Message)>)
    ensures forall i :: 0 <= i < |r| ==> r[i].0 in msgs && r[i].1 == msgs[r[i].0] && r[i].0 < below
    ensures forall u :: u in msgs && u < below ==> (u, msgs[u]) in r
    ensures forall i, j :: 0 <= i < j < |r| ==> r[i].0 < r[j].0
  {
    if below == 0 then []
    else if below - 1 in msgs then Listing(msgs, below - 1) + [(below - 1, msgs[below - 1])]
    else Listing(msgs, below - 1)
  }

  predicate Selected(s: Server, sel: Selection) {
    sel.box in s.boxes && s.boxes[sel.box].validity == sel.validity
  }

  /** `getMailboxLock`: a mailbox that is open already is not selected again; its snapshot is what there is. */
  function Lock(o: Oracle, w: World, box: string): (r: (World, Result<Selection>)) {
    var s := Arrive(o, w);
    if w.open.Some? && w.open.value.box == box then (World(s, w.turn + 1, w.open, w.conn), Ok(w.open.value))
    else if !o(w.turn).fate.Works? || box !in s.boxes then (World(s, w.turn + 1, None, w.conn), Err)
    else
      var m := s.boxes[box];
      var sel := Selection(box, m.validity, m.uidNext, |m.msgs|);
      (World(s, w.turn + 1, Some(sel), w.conn), Ok(sel))
  }

  /** `live()` and then `getMailboxLock`. */
  function Open(o: Oracle, w: World, box: string): (r: (World, Result<Selection>)) {
    Lock(o, if o(w.turn).lost then Reconnect(w) else w, box)
  }

  /** `getMailboxLock` on a client taken earlier: it fails if that connection is no longer the one in use. */
  function LockOn(o: Oracle, w: World, conn: nat, box: string): (r: (World, Result<Selection>)) {
    if o(w.turn).lost || w.conn != conn then (After(o, w, Arrive(o, w)), Err) else Lock(o, w, box)
  }

  /**
   * `fetchAll('1:*')` on the open mailbox. Matching nothing is an empty answer
   * (section 6.4.8 of RFC 3501). A mailbox recreated under its selection ends the session.
   */
  function FetchAll(o: Oracle, w: World, sel: Selection): (r: (World, Result<seq<(nat, Message)>>)) {
    var s := Arrive(o, w);
    var next := After(o, w, s);
    if o(w.turn).lost || !o(w.turn).fate.Works? || !Selected(s, sel) then (next, Err)
    else (next, Ok(Listing(s.boxes[sel.box].msgs, s.boxes[sel.box].uidNext)))
  }

  /** `search({uid})` on the open mailbox; `false` is an `Err` to every caller here. */
  function Search(o: Oracle, w: World, sel: Selection, uid: nat): (r: (World, Result<bool>)) {
    var s := Arrive(o, w);
    var next := After(o, w, s);
    if o(w.turn).lost || !o(w.turn).fate.Works? || !Selected(s, sel) then (next, Err)
    else (next, Ok(uid in s.boxes[sel.box].msgs))
  }

  /** `fetchOne(uid, {source})` on the open mailbox: the bytes, or nothing there. */
  function FetchOne(o: Oracle, w: World, sel: Selection, uid: nat): (r: (World, Result<Option<Raw>>)) {
    var s := Arrive(o, w);
    var next := After(o, w, s);
    if o(w.turn).lost || !o(w.turn).fate.Works? || !Selected(s, sel) then (next, Err)
    else if uid in s.boxes[sel.box].msgs then (next, Ok(Some(s.boxes[sel.box].msgs[uid].raw)))
    else (next, Ok(None))
  }

  /** `list()`: every mailbox with the attributes the server assigned. */
  function ListBoxes(o: Oracle, w: World): (r: (World, Result<seq<(string, seq<string>)>>)) {
    var s := Arrive(o, w);
    var next := After(o, w, s);
    if !o(w.turn).fate.Works? then (next, Err)
    else (next, Ok(seq(|s.names|, i requires 0 <= i < |s.names| =>
                       (s.names[i], if s.names[i] in s.boxes then s.boxes[s.names[i]].attributes else []))))
  }

  /** `append`: the new UID under UIDPLUS, nothing to go by without. */
  function Append(o: Oracle, w: World, conn: nat, box: string, raw: Raw, flags: seq<string>):
      (r: (World, Result<Option<nat>>))
  {
    var s := Arrive(o, w);
    var fate := o(w.turn).fate;
    if o(w.turn).lost || w.conn != conn || fate.FailsBefore? || fate.Refused? || box !in s.boxes then (After(o, w, s), Err)
    else
      var next := After(o, w, AddMessage(s, box, raw, flags, false));
      if fate.FailsAfter? then (next, Err)
      else (next, Ok(if s.uidplus then Some(s.boxes[box].uidNext) else None))
  }

  /** `messageMove`: moves the named UID and nothing else; `Ok(false)` is a refusal by return value. */
  function Move(o: Oracle, w: World, sel: Selection, uid: nat, bin: string): (r: (World, Result<bool>)) {
    var s := Arrive(o, w);
    var fate := o(w.turn).fate;
    if o(w.turn).lost || fate.FailsBefore? || !Selected(s, sel) then (After(o, w, s), Err)
    else if fate.Refused? || fate.HalfDone? || bin !in s.boxes then (After(o, w, s), Ok(false))
    else if fate.Lies? || uid !in s.boxes[sel.box].msgs then (After(o, w, s), Ok(true))
    else
      var m := s.boxes[sel.box].msgs[uid];
      var t := AddMessage(Remove(s, sel.box, {uid}, Ours), bin, m.raw, m.flags, m.deleted);
      (After(o, w, t), if fate.FailsAfter? then Err else Ok(true))
  }

  /**
   * `messageDelete(uid, {uid: true})`: flag the message \Deleted, then UID EXPUNGE it
   * (section 2.1 of RFC 4315), or, on a server without UIDPLUS, a bare EXPUNGE of
   * everything that anyone has flagged.
   */
  function Delete(o: Oracle, w: World, sel: Selection, uid: nat): (r: (World, Result<bool>)) {
    var s := Arrive(o, w);
    var fate := o(w.turn).fate;
    if o(w.turn).lost || fate.FailsBefore? || !Selected(s, sel) then (After(o, w, s), Err)
    else if fate.Refused? then (After(o, w, s), Ok(false))
    else if fate.Lies? then (After(o, w, s), Ok(true))
    else
      var stored := Flag(s, sel.box, uid, true).(flagged := s.flagged + {Handle(sel.box, sel.validity, uid)});
      if fate.HalfDone? then (After(o, w, stored), Ok(false))
      else
        var doomed := if s.uidplus then {uid} * FlaggedUids(stored.boxes[sel.box])
                      else FlaggedUids(stored.boxes[sel.box]);
        (After(o, w, Remove(stored, sel.box, doomed, Ours)), if fate.FailsAfter? then Err else Ok(true))
  }
}
