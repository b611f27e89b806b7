/**
 * Writing a message again after a failure, wherever the failure struck, never makes a
 * second copy of it, exactly if the id the writer finds in it is the one the server reports.
 */
module RetrySafety {
  import opened Outcomes
  import opened ImapServer
  import opened MailConventions
  import opened MailTarget
  import opened HandleSafety

  /** The UIDs of the messages in `box` whose normalised Message-ID is `key`. */
  function CopyUids(s: Server, box: string, key: string): set<nat> {
    if box in s.boxes then set u | u in s.boxes[box].msgs && HasKey(s.boxes[box].msgs[u].raw, key) else {}
  }

  /** Nobody else delivers a message with this key in these steps; anything else may happen. */
  predicate SilentOn(env: seq<EnvStep>, box: string, key: string)
    decreases |env|
  {
    env != [] ==> !(env[0].Deliver? && env[0].box == box && HasKey(env[0].raw, key)) && SilentOn(env[1..], box, key)
  }

  predicate SilentTurns(o: Oracle, from: nat, to: nat, box: string, key: string) {
    forall t: nat :: from <= t < to ==> SilentOn(o(t).env, box, key)
  }

  /** No new copies: those there now were there before, or there is at most one. */
  predicate Bounded(before: set<nat>, after: set<nat>) {
    after <= before || |after| <= 1
  }

  lemma SubsetSize(a: set<nat>, b: set<nat>)
    requires a <= b
    ensures |a| <= |b|
  {
    assert b == a + (b - a);
  }

  lemma BoundedTrans(a: set<nat>, b: set<nat>, c: set<nat>)
    requires Bounded(a, b) && Bounded(b, c)
    ensures Bounded(a, c)
  {
    if c <= b && |b| <= 1 { SubsetSize(c, b); }
  }

  lemma StepCopies(s: Server, e: EnvStep, box: string, key: string)
    requires !(e.Deliver? && e.box == box && HasKey(e.raw, key))
    ensures CopyUids(Step(s, e), box, key) <= CopyUids(s, box, key)
  {
  }

  lemma {:induction false} StepsCopies(s: Server, env: seq<EnvStep>, box: string, key: string)
    requires SilentOn(env, box, key)
    ensures CopyUids(Steps(s, env), box, key) <= CopyUids(s, box, key)
    decreases |env|
  {
    if env != [] {
      StepCopies(s, env[0], box, key);
      StepsCopies(Step(s, env[0]), env[1..], box, key);
    }
  }

  lemma FindCopies(o: Oracle, w: World, target: string, naturalKey: string, box: string, key: string)
    requires SilentTurns(o, w.turn, Find(o, w, target, naturalKey).0.turn, box, key)
    ensures CopyUids(Find(o, w, target, naturalKey).0.server, box, key) <= CopyUids(w.server, box, key)
    ensures w.turn <= Find(o, w, target, naturalKey).0.turn
  {
    hide CopyUids, SilentOn, Steps, Open;
    var (w1, sel) := Open(o, w, target);
    OpenArrives(o, w, target);
    StepsCopies(w.server, o(w.turn).env, box, key);
    if sel.Ok? { StepsCopies(w1.server, o(w1.turn).env, box, key); }
  }

  lemma VersionCopies(o: Oracle, w: World, target: string, box: string, key: string)
    requires SilentOn(o(w.turn).env, box, key)
    ensures var w' := UidValidityOf(o, w, target).0;
            w'.turn == w.turn + 1 && CopyUids(w'.server, box, key) <= CopyUids(w.server, box, key)
  {
    OpenArrives(o, w, target);
    StepsCopies(w.server, o(w.turn).env, box, key);
    hide CopyUids, SilentOn, Steps, Open;
  }

  lemma AddCopies(s: Server, target: string, raw: Raw, flags: seq<string>, box: string, key: string)
    requires Inv(s) && target in s.boxes
    ensures var t := AddMessage(s, target, raw, flags, false);
            && (target == box && HasKey(raw, key) ==>
                  CopyUids(t, box, key) == CopyUids(s, box, key) + {s.boxes[box].uidNext})
            && (target != box || !HasKey(raw, key) ==> CopyUids(t, box, key) == CopyUids(s, box, key))
  {
    assert BoxInv(s, target);
    assert s.boxes[target].uidNext !in s.boxes[target].msgs;
  }

  /** An APPEND adds one copy where there were none, or a message with another key. */
  lemma AppendCopies(o: Oracle, w: World, conn: nat, target: string, raw: Raw, flags: seq<string>, box: string, key: string)
    requires Inv(w.server) && SilentOn(o(w.turn).env, box, key)
    requires target == box && HasKey(raw, key) ==> CopyUids(w.server, box, key) == {}
    ensures Bounded(CopyUids(w.server, box, key), CopyUids(Append(o, w, conn, target, raw, flags).0.server, box, key))
  {
    hide CopyUids, AddMessage, SilentOn, HasKey;
    StepsCopies(w.server, o(w.turn).env, box, key);
    StepsInv(w.server, o(w.turn).env);
    var s := Arrive(o, w);
    hide Arrive, Inv, Later;
    if target in s.boxes { AddCopies(s, target, raw, flags, box, key); }
  }

  /** One attempt, for every mailbox and every key, not only its own. */
  lemma UpsertBounded(o: Oracle, w: World, target: string, raw: Raw, keywords: seq<Keyword>, box: string, key: string)
    requires Inv(w.server) && (target == box && HasKey(raw, key) ==> Faithful(raw))
    requires SilentTurns(o, w.turn, Upsert(o, w, target, raw, keywords).0.turn, box, key)
    ensures Bounded(CopyUids(w.server, box, key), CopyUids(Upsert(o, w, target, raw, keywords).0.server, box, key))
    ensures w.turn <= Upsert(o, w, target, raw, keywords).0.turn
  {
    AttachKeeps(o, w);
    UpsertTurns(o, w, target, raw, keywords);
    hide CopyUids, SilentOn, Inv, Later, Touched, Attach, Find, UidValidityOf, Append, HasKey;
    hide ExtractMessageId, NormaliseKey, AppendFlags;
    var w0, id := Attach(o, w), ExtractMessageId(raw.headerId);
    if id.None? { return; }
    var (w1, existing) := Find(o, w0, target, id.value);
    FindKeeps(o, w0, target, id.value);
    FindCopies(o, w0, target, id.value, box, key);
    if existing.Err? { return; }
    var (w2, version) := UidValidityOf(o, w1, target);
    UidValidityKeeps(o, w1, target);
    assert SilentOn(o(w1.turn).env, box, key);
    VersionCopies(o, w1, target, box, key);
    if version.Err? || existing.value.Some? { return; }
    if target == box && HasKey(raw, key) { NoneFound(o, w0, target, raw, key); }
    var flags := AppendFlags(keywords);
    var (w3, appended) := Append(o, w2, w0.conn, target, raw, flags);
    AppendKeeps(o, w2, w0.conn, target, raw, flags);
    assert SilentOn(o(w2.turn).env, box, key);
    AppendCopies(o, w2, w0.conn, target, raw, flags, box, key);
    BoundedTrans(CopyUids(w.server, box, key), CopyUids(w2.server, box, key), CopyUids(w3.server, box, key));
    if appended.Ok? && appended.value.None? {
      var w4 := Find(o, w3, target, id.value).0;
      FindCopies(o, w3, target, id.value, box, key);
      BoundedTrans(CopyUids(w.server, box, key), CopyUids(w3.server, box, key), CopyUids(w4.server, box, key));
    }
  }

  lemma FindTurns(o: Oracle, w: World, target: string, naturalKey: string)
    ensures w.turn < Find(o, w, target, naturalKey).0.turn <= w.turn + 2
  {
    OpenArrives(o, w, target);
    hide Arrive, Open;
  }

  lemma AppendTurn(o: Oracle, w: World, conn: nat, target: string, raw: Raw, flags: seq<string>)
    ensures Append(o, w, conn, target, raw, flags).0.turn == w.turn + 1
  {
    hide Arrive, AddMessage;
  }

  /** The turns of an upsert, call by call. */
  lemma UpsertTurns(o: Oracle, w: World, target: string, raw: Raw, keywords: seq<Keyword>)
    ensures var w' := Upsert(o, w, target, raw, keywords).0;
            && w.turn <= w'.turn
            && (var w0, id := Attach(o, w), ExtractMessageId(raw.headerId);
                id.Some? ==>
                  var (w1, existing) := Find(o, w0, target, id.value);
                  && w1.turn <= w'.turn
                  && (existing.Ok? ==>
                        var (w2, version) := UidValidityOf(o, w1, target);
                        && w2.turn == w1.turn + 1 <= w'.turn
                        && (version.Ok? && existing.value.None? ==>
                              var (w3, appended) := Append(o, w2, w0.conn, target, raw, AppendFlags(keywords));
                              && w3.turn == w2.turn + 1 <= w'.turn)))
  {
    AttachKeeps(o, w);
    var w0, id := Attach(o, w), ExtractMessageId(raw.headerId);
    if id.Some? {
      var w1 := Find(o, w0, target, id.value).0;
      FindTurns(o, w0, target, id.value);
      OpenArrives(o, w1, target);
      var w2 := UidValidityOf(o, w1, target).0;
      var flags := AppendFlags(keywords);
      var w3 := Append(o, w2, w0.conn, target, raw, flags).0;
      AppendTurn(o, w2, w0.conn, target, raw, flags);
      FindTurns(o, w3, target, id.value);
      hide Attach, Find, Open, Append, AppendFlags, ExtractMessageId;
    }
  }

  lemma NoneFound(o: Oracle, w: World, target: string, raw: Raw, key: string)
    requires Inv(w.server) && Faithful(raw) && ExtractMessageId(raw.headerId).Some? && HasKey(raw, key)
    requires Find(o, w, target, ExtractMessageId(raw.headerId).value).1 == Ok(None)
    ensures CopyUids(Find(o, w, target, ExtractMessageId(raw.headerId).value).0.server, target, key) == {}
  {
    FindAnswers(o, w, target, ExtractMessageId(raw.headerId).value);
    hide Find, Inv;
  }

  // ----- any number of attempts -----

  datatype Attempt = Attempt(box: string, raw: Raw, keywords: seq<Keyword>)

  function TryAll(o: Oracle, w: World, attempts: seq<Attempt>): World
    decreases |attempts|
  {
    if attempts == [] then w
    else TryAll(o, Upsert(o, w, attempts[0].box, attempts[0].raw, attempts[0].keywords).0, attempts[1..])
  }

  /** Where these attempts write this key, the writer finds it. */
  predicate AllFaithful(attempts: seq<Attempt>, box: string, key: string) {
    forall a :: a in attempts && a.box == box && HasKey(a.raw, key) ==> Faithful(a.raw)
  }

  lemma {:induction false} TryAllBounded(o: Oracle, w: World, attempts: seq<Attempt>, box: string, key: string)
    requires Inv(w.server) && AllFaithful(attempts, box, key)
    requires SilentTurns(o, w.turn, TryAll(o, w, attempts).turn, box, key)
    ensures Bounded(CopyUids(w.server, box, key), CopyUids(TryAll(o, w, attempts).server, box, key))
    ensures w.turn <= TryAll(o, w, attempts).turn
    decreases |attempts|
  {
    hide CopyUids, SilentOn, Inv, Later, Upsert;
    if attempts != [] {
      var a := attempts[0];
      var w1 := Upsert(o, w, a.box, a.raw, a.keywords).0;
      UpsertKeeps(o, w, a.box, a.raw, a.keywords);
      TurnsGrow(o, w1, attempts[1..]);
      UpsertBounded(o, w, a.box, a.raw, a.keywords, box, key);
      assert AllFaithful(attempts[1..], box, key);
      TryAllBounded(o, w1, attempts[1..], box, key);
      BoundedTrans(CopyUids(w.server, box, key), CopyUids(w1.server, box, key),
                   CopyUids(TryAll(o, w, attempts).server, box, key));
    }
  }

  lemma {:induction false} TurnsGrow(o: Oracle, w: World, attempts: seq<Attempt>)
    ensures w.turn <= TryAll(o, w, attempts).turn
    decreases |attempts|
  {
    hide Upsert;
    if attempts != [] {
      var a := attempts[0];
      UpsertTurns(o, w, a.box, a.raw, a.keywords);
      TurnsGrow(o, Upsert(o, w, a.box, a.raw, a.keywords).0, attempts[1..]);
    }
  }

  /**
   * Retry-safe append. Over any sequence of attempts at any messages, each failing at
   * any call or not at all, while other clients flag, expunge and recreate as they
   * like: the copies of a key never exceed what was there before, or one, as long as the
   * writer finds that key in the messages that have it.
   */
  lemma RetrySafe(o: Oracle, w: World, attempts: seq<Attempt>, box: string, key: string)
    requires Inv(w.server) && AllFaithful(attempts, box, key)
    requires SilentTurns(o, w.turn, TryAll(o, w, attempts).turn, box, key)
    ensures var before, after := |CopyUids(w.server, box, key)|, |CopyUids(TryAll(o, w, attempts).server, box, key)|;
            after <= if before > 1 then before else 1
  {
    hide CopyUids, SilentOn, Inv, TryAll;
    TryAllBounded(o, w, attempts, box, key);
    var before, after := CopyUids(w.server, box, key), CopyUids(TryAll(o, w, attempts).server, box, key);
    if after <= before { SubsetSize(after, before); }
  }

  // ----- one attempt that answers -----

  /** The UID and mailbox are those of this message or one with its id, which we have not taken away again. */
  predicate Delivery(t: Server, g: Handle, raw: Raw) {
    g in t.named && Means(t.named[g], raw) && !Taken(t, g, Ours)
  }

  /** What was delivered is there, unless another client took it or its mailbox was recreated. */
  lemma DeliveryIsThere(t: Server, g: Handle, raw: Raw)
    requires Inv(t) && Delivery(t, g, raw)
    ensures Taken(t, g, Others) || Renumbered(t, g) || Alive(t, g)
  {
    if !Renumbered(t, g) { assert BoxInv(t, g.box); }
  }

  lemma DeliveryStays(s: Server, t: Server, g: Handle, raw: Raw)
    requires Progress(s, t, iset{}) && Delivery(s, g, raw)
    ensures Delivery(t, g, raw)
  {
    hide Inv, Means;
    assert !Touched(s, t, g);
  }

  lemma ThereIsDelivery(s: Server, box: string, uid: nat, raw: Raw)
    requires Inv(s) && box in s.boxes && uid in s.boxes[box].msgs && Means(s.boxes[box].msgs[uid].raw, raw)
    ensures Alive(s, Handle(box, s.boxes[box].validity, uid)) && Delivery(s, Handle(box, s.boxes[box].validity, uid), raw)
  {
    assert BoxInv(s, box);
    hide Means;
  }

  lemma FindDelivers(o: Oracle, w: World, box: string, raw: Raw)
    requires Inv(w.server) && ExtractMessageId(raw.headerId).Some?
    ensures var (w', r) := Find(o, w, box, ExtractMessageId(raw.headerId).value);
            r.Ok? && r.value.Some? ==>
              && box in w'.server.boxes
              && var g := Handle(box, w'.server.boxes[box].validity, r.value.value);
                 Alive(w'.server, g) && Delivery(w'.server, g, raw)
  {
    var id := ExtractMessageId(raw.headerId).value;
    FindKeeps(o, w, box, id);
    FindAnswers(o, w, box, id);
    var (w', r) := Find(o, w, box, id);
    hide Find, Inv, Later, Touched, Delivery, NormaliseKey, HasKey, ExtractMessageId;
    if r.Ok? && r.value.Some? { ThereIsDelivery(w'.server, box, r.value.value, raw); }
  }

  lemma AppendDelivers(o: Oracle, w: World, conn: nat, box: string, raw: Raw, flags: seq<string>)
    requires Inv(w.server)
    ensures var (w', r) := Append(o, w, conn, box, raw, flags);
            && (r.Ok? ==> box in w'.server.boxes)
            && (r.Ok? && r.value.Some? ==>
                  var g := Handle(box, w'.server.boxes[box].validity, r.value.value);
                  Alive(w'.server, g) && Delivery(w'.server, g, raw))
  {
    AppendKeeps(o, w, conn, box, raw, flags);
    var (w', r) := Append(o, w, conn, box, raw, flags);
    if r.Ok? && r.value.Some? {
      hide Arrive, NormaliseKey, HasKey, ExtractMessageId, Inv, Later, Touched;
      ThereIsDelivery(w'.server, box, r.value.value, raw);
    }
  }

  /** A message that is there was there before, if it was already known then. */
  lemma AliveBefore(s: Server, t: Server, g: Handle)
    requires Inv(s) && Inv(t) && Later(s, t) && Alive(t, g) && g in s.named
    ensures Alive(s, g)
  {
    assert BoxInv(t, g.box);
    if g.box in s.boxes { assert BoxInv(s, g.box); }
  }

  /**
   * An answered upsert has the message, or one with its id, to show for it under the returned
   * UID: one that was there when the attempt began or has come since, that only another
   * client can have taken by now, or lost with its mailbox.
   */
  lemma AnsweredWasDelivered(o: Oracle, w: World, box: string, raw: Raw, keywords: seq<Keyword>) returns (g: Handle)
    requires Inv(w.server)
    ensures var (w', r) := Upsert(o, w, box, raw, keywords);
            r.Ok? ==>
              && ExtractMessageId(raw.headerId).Some?
              && g.box == box && g.uid == r.value.uid
              && Delivery(w'.server, g, raw)
              && (g in w.server.named ==> Alive(w.server, g))
  {
    g := Handle(box, 0, 0);
    if Upsert(o, w, box, raw, keywords).1.Err? { return; }
    if Upsert(o, w, box, raw, keywords).1.value.created {
      g := CreatedWasDelivered(o, w, box, raw, keywords);
    } else {
      g := AdoptedWasDelivered(o, w, box, raw, keywords);
    }
  }

  lemma AdoptedWasDelivered(o: Oracle, w: World, box: string, raw: Raw, keywords: seq<Keyword>) returns (g: Handle)
    requires Inv(w.server)
    requires Upsert(o, w, box, raw, keywords).1.Ok? && !Upsert(o, w, box, raw, keywords).1.value.created
    ensures ExtractMessageId(raw.headerId).Some?
    ensures var (w', r) := Upsert(o, w, box, raw, keywords);
            && g.box == box && g.uid == r.value.uid
            && Delivery(w'.server, g, raw)
            && (g in w.server.named ==> Alive(w.server, g))
  {
    AdoptedShape(o, w, box, raw, keywords);
    AttachKeeps(o, w);
    hide Upsert, Attach, Find, UidValidityOf, ExtractMessageId, NormaliseKey, Delivery, Inv, Later, Touched, Alive;
    var (w', r) := Upsert(o, w, box, raw, keywords);
    var w0, id := Attach(o, w), ExtractMessageId(raw.headerId).value;
    var w1 := Find(o, w0, box, id).0;
    FindKeeps(o, w0, box, id);
    FindDelivers(o, w0, box, raw);
    UidValidityKeeps(o, w1, box);
    g := Handle(box, w1.server.boxes[box].validity, r.value.uid);
    DeliveryStays(w1.server, w'.server, g, raw);
    if g in w.server.named { AliveBefore(w.server, w1.server, g); }
  }

  lemma CreatedWasDelivered(o: Oracle, w: World, box: string, raw: Raw, keywords: seq<Keyword>) returns (g: Handle)
    requires Inv(w.server)
    requires Upsert(o, w, box, raw, keywords).1.Ok? && Upsert(o, w, box, raw, keywords).1.value.created
    ensures ExtractMessageId(raw.headerId).Some?
    ensures var (w', r) := Upsert(o, w, box, raw, keywords);
            && g.box == box && g.uid == r.value.uid
            && Delivery(w'.server, g, raw)
            && (g in w.server.named ==> Alive(w.server, g))
  {
    UpsertKeeps(o, w, box, raw, keywords);
    CreatedShape(o, w, box, raw, keywords);
    AttachKeeps(o, w);
    hide Upsert, Progress, Attach, Find, UidValidityOf, Append, AppendFlags, ExtractMessageId, NormaliseKey;
    hide Delivery, Inv, Later, Touched, Alive;
    var (w', r) := Upsert(o, w, box, raw, keywords);
    var w0, id := Attach(o, w), ExtractMessageId(raw.headerId).value;
    var w1 := Find(o, w0, box, id).0;
    FindKeeps(o, w0, box, id);
    QuietIs(w0.server, w1.server);
    var w2 := UidValidityOf(o, w1, box).0;
    UidValidityKeeps(o, w1, box);
    QuietIs(w1.server, w2.server);
    var flags := AppendFlags(keywords);
    var (w3, appended) := Append(o, w2, w0.conn, box, raw, flags);
    AppendKeeps(o, w2, w0.conn, box, raw, flags);
    AppendDelivers(o, w2, w0.conn, box, raw, flags);
    QuietIs(w2.server, w3.server);
    if appended.value.None? { FindDelivers(o, w3, box, raw); }
    QuietIs(w.server, w'.server);
    g := Handle(box, w'.server.boxes[box].validity, r.value.uid);
    if g in w.server.named { AliveBefore(w.server, w'.server, g); }
  }

  // ----- with nobody else at work -----

  predicate Alone(o: Oracle, from: nat, to: nat) {
    forall t: nat :: from <= t < to ==> o(t).env == []
  }

  lemma AloneIsSilent(o: Oracle, from: nat, to: nat, box: string, key: string)
    requires Alone(o, from, to)
    ensures SilentTurns(o, from, to, box, key)
  {
  }

  /**
   * What an answered upsert leaves behind. Nobody else delivering its key: one copy, the one
   * answered, where there was at most one before and the answered one has not been taken.
   * Nobody else at work at all: it is there, under the version answered, and an adopted
   * message changed nothing.
   */
  lemma AnsweredIsThere(o: Oracle, w: World, box: string, raw: Raw, keywords: seq<Keyword>) returns (g: Handle)
    requires Inv(w.server)
    ensures var (w', r) := Upsert(o, w, box, raw, keywords);
            r.Ok? ==>
              && ExtractMessageId(raw.headerId).Some?
              && var key := NormaliseKey(ExtractMessageId(raw.headerId).value);
                 && g.box == box && g.uid == r.value.uid && Delivery(w'.server, g, raw)
                 && (Alive(w'.server, g) || Taken(w'.server, g, Others) || Renumbered(w'.server, g))
                 && (Faithful(raw) && SilentTurns(o, w.turn, w'.turn, box, key) && |CopyUids(w.server, box, key)| <= 1
                     && Alive(w'.server, g) ==>
                       CopyUids(w'.server, box, key) == {g.uid})
                 && (Alone(o, w.turn, w'.turn) ==>
                       Alive(w'.server, g) && g.validity == r.value.version && (!r.value.created ==> w'.server == w.server))
  {
    g := AnsweredWasDelivered(o, w, box, raw, keywords);
    var (w', r) := Upsert(o, w, box, raw, keywords);
    hide Upsert, CopyUids, ExtractMessageId, NormaliseKey, SilentTurns, Alive, Delivery, Inv, Later, Touched, Alone;
    if r.Err? { return; }
    UpsertKeeps(o, w, box, raw, keywords);
    var key := NormaliseKey(ExtractMessageId(raw.headerId).value);
    DeliveryIsThere(w'.server, g, raw);
    if Alone(o, w.turn, w'.turn) { g := AnsweredAlone(o, w, box, raw, keywords); }
    DeliveryIsThere(w'.server, g, raw);
    if Faithful(raw) && SilentTurns(o, w.turn, w'.turn, box, key) && |CopyUids(w.server, box, key)| <= 1
       && Alive(w'.server, g) {
      AliveIsCopy(w'.server, g, raw);
      UpsertBounded(o, w, box, raw, keywords, box, key);
      OnlyCopy(CopyUids(w.server, box, key), CopyUids(w'.server, box, key), g.uid);
    }
  }

  lemma AliveIsCopy(t: Server, g: Handle, raw: Raw)
    requires Inv(t) && Alive(t, g) && Delivery(t, g, raw) && Faithful(raw) && ExtractMessageId(raw.headerId).Some?
    ensures g.uid in CopyUids(t, g.box, NormaliseKey(ExtractMessageId(raw.headerId).value))
  {
    assert BoxInv(t, g.box);
    hide NormaliseKey, ExtractMessageId;
  }

  lemma OnlyCopy(before: set<nat>, after: set<nat>, uid: nat)
    requires Bounded(before, after) && |before| <= 1 && uid in after
    ensures after == {uid}
  {
    if after <= before { SubsetSize(after, before); }
    if x :| x in after && x != uid {
      SubsetSize({uid, x}, after);
    }
  }

  /** Nobody else at work: a call finds the server as the one before left it. */
  lemma AloneArrives(o: Oracle, w: World)
    requires o(w.turn).env == []
    ensures Arrive(o, w) == w.server
  {
  }

  lemma FindAlone(o: Oracle, w: World, box: string, naturalKey: string)
    requires Alone(o, w.turn, Find(o, w, box, naturalKey).0.turn)
    ensures Find(o, w, box, naturalKey).0.server == w.server
  {
    OpenArrives(o, w, box);
    hide Arrive, Open;
    AloneArrives(o, w);
    var w1 := Open(o, w, box).0;
    if Find(o, w, box, naturalKey).0.turn == w.turn + 2 { AloneArrives(o, w1); }
  }

  lemma AppendAlone(o: Oracle, w: World, conn: nat, box: string, raw: Raw, flags: seq<string>)
    requires o(w.turn).env == []
    ensures var (w', r) := Append(o, w, conn, box, raw, flags);
            r.Ok? ==>
              && box in w.server.boxes && box in w'.server.boxes
              && w'.server.boxes[box].validity == w.server.boxes[box].validity
  {
    AloneArrives(o, w);
    hide Arrive;
  }

  lemma AnsweredAlone(o: Oracle, w: World, box: string, raw: Raw, keywords: seq<Keyword>) returns (g: Handle)
    requires Inv(w.server) && Upsert(o, w, box, raw, keywords).1.Ok?
    requires Alone(o, w.turn, Upsert(o, w, box, raw, keywords).0.turn)
    ensures var (w', r) := Upsert(o, w, box, raw, keywords);
            && ExtractMessageId(raw.headerId).Some?
            && g == Handle(box, r.value.version, r.value.uid) && Alive(w'.server, g)
            && Delivery(w'.server, g, raw)
            && (!r.value.created ==> w'.server == w.server)
  {
    UpsertTurns(o, w, box, raw, keywords);
    AttachKeeps(o, w);
    hide Attach, Find, UidValidityOf, Append, AppendFlags, ExtractMessageId, NormaliseKey, Delivery, Inv, Later, Touched, Alive;
    var (w', r) := Upsert(o, w, box, raw, keywords);
    var w0, id := Attach(o, w), ExtractMessageId(raw.headerId).value;
    g := Handle(box, r.value.version, r.value.uid);
    var (w1, existing) := Find(o, w0, box, id);
    FindAlone(o, w0, box, id);
    FindKeeps(o, w0, box, id);
    FindDelivers(o, w0, box, raw);
    FindSelects(o, w0, box, id);
    var (w2, version) := UidValidityOf(o, w1, box);
    VersionAlone(o, w1, box);
    if existing.value.None? {
      var flags := AppendFlags(keywords);
      var (w3, appended) := Append(o, w2, w0.conn, box, raw, flags);
      AppendKeeps(o, w2, w0.conn, box, raw, flags);
      AppendDelivers(o, w2, w0.conn, box, raw, flags);
      AppendAlone(o, w2, w0.conn, box, raw, flags);
      if appended.value.None? {
        FindAlone(o, w3, box, id);
        FindDelivers(o, w3, box, raw);
      }
    }
  }

  lemma VersionAlone(o: Oracle, w: World, box: string)
    requires Inv(w.server) && w.open.Some? && w.open.value.box == box && Selected(w.server, w.open.value)
    requires o(w.turn).env == []
    ensures var (w', version) := UidValidityOf(o, w, box);
            && w'.server == w.server
            && (version.Ok? ==> box in w.server.boxes && version.value == w.server.boxes[box].validity)
  {
    VersionRead(o, w, box);
    AloneArrives(o, w);
    hide UidValidityOf, Arrive;
  }

  // ----- when the writer does not find the id the server reports -----

  /** The messages of the mailbox with exactly these bytes. */
  function RawUids(s: Server, box: string, raw: Raw): set<nat> {
    if box in s.boxes then set u | u in s.boxes[box].msgs && s.boxes[box].msgs[u].raw == raw else {}
  }

  /** Every call works, and nobody else does anything. */
  ghost predicate Smooth(o: Oracle) {
    forall t: nat :: o(t) == Turn([], Works)
  }

  /** The mailbox, if it is the one selected, has not been recreated since. */
  predicate Ready(w: World, box: string) {
    box in w.server.boxes && (w.open.Some? && w.open.value.box == box ==> Selected(w.server, w.open.value))
  }

  lemma SmoothOpen(o: Oracle, w: World, box: string)
    requires Smooth(o) && Ready(w, box)
    ensures var (w1, sel) := Open(o, w, box);
            sel.Ok? && sel.value.box == box && Selected(w.server, sel.value)
            && w1 == World(w.server, w.turn + 1, Some(sel.value), w.conn)
  {
    assert Arrive(o, w) == w.server;
    hide Arrive;
  }

  lemma SmoothFind(o: Oracle, w: World, box: string, naturalKey: string)
    requires Smooth(o) && Ready(w, box)
    ensures var (w2, r) := Find(o, w, box, naturalKey);
            r.Ok? && w2.server == w.server && w2.conn == w.conn && Ready(w2, box)
  {
    SmoothOpen(o, w, box);
    var (w1, sel) := Open(o, w, box);
    assert Arrive(o, w1) == w1.server;
    hide Arrive, Open, NormaliseKey;
  }

  lemma SmoothAppend(o: Oracle, w: World, box: string, raw: Raw, flags: seq<string>)
    requires Smooth(o) && Ready(w, box)
    ensures var (w', r) := Append(o, w, w.conn, box, raw, flags);
            r.Ok? && w'.server == AddMessage(w.server, box, raw, flags, false) && Ready(w', box)
  {
    assert Arrive(o, w) == w.server;
    hide Arrive;
  }

  /** With nothing under the id the writer goes by, one attempt appends. */
  lemma SmoothUpsert(o: Oracle, w: World, box: string, raw: Raw, keywords: seq<Keyword>)
    requires Inv(w.server) && Smooth(o) && Ready(w, box) && ExtractMessageId(raw.headerId).Some?
    requires CopyUids(w.server, box, NormaliseKey(ExtractMessageId(raw.headerId).value)) == {}
    ensures var w' := Upsert(o, w, box, raw, keywords).0;
            w'.server == AddMessage(w.server, box, raw, AppendFlags(keywords), false) && Ready(w', box)
  {
    var id := ExtractMessageId(raw.headerId).value;
    assert Attach(o, w) == w;
    SmoothFind(o, w, box, id);
    FindAnswers(o, w, box, id);
    hide Attach, Find, Append, AppendFlags, AddMessage, ExtractMessageId, NormaliseKey, HasKey, Inv;
    var (w1, existing) := Find(o, w, box, id);
    assert existing.value.None? by { NotAmongNone(w.server, box, NormaliseKey(id)); }
    SmoothOpen(o, w1, box);
    var w2 := UidValidityOf(o, w1, box).0;
    var flags := AppendFlags(keywords);
    SmoothAppend(o, w2, box, raw, flags);
    SmoothFind(o, Append(o, w2, w.conn, box, raw, flags).0, box, id);
    hide Open, Ready;
  }

  lemma NotAmongNone(s: Server, box: string, key: string)
    requires box in s.boxes && CopyUids(s, box, key) == {}
    ensures forall u :: u in s.boxes[box].msgs ==> !HasKey(s.boxes[box].msgs[u].raw, key)
  {
    hide HasKey;
    forall u | u in s.boxes[box].msgs ensures !HasKey(s.boxes[box].msgs[u].raw, key) {
      assert u !in CopyUids(s, box, key);
    }
  }

  lemma AddRaw(s: Server, box: string, raw: Raw, flags: seq<string>)
    requires Inv(s) && box in s.boxes
    ensures |RawUids(AddMessage(s, box, raw, flags, false), box, raw)| == |RawUids(s, box, raw)| + 1
  {
    assert BoxInv(s, box);
    var next := s.boxes[box].uidNext;
    assert RawUids(AddMessage(s, box, raw, flags, false), box, raw) == RawUids(s, box, raw) + {next};
  }

  function Again(attempt: Attempt, n: nat): seq<Attempt> {
    if n == 0 then [] else [attempt] + Again(attempt, n - 1)
  }

  /**
   * Bytes whose own id the writer does not find pile up: although every call works, each
   * attempt looks in vain for the other id and appends once more.
   */
  lemma {:induction false} UnfaithfulPilesUp(o: Oracle, w: World, box: string, raw: Raw, keywords: seq<Keyword>, n: nat)
    requires Inv(w.server) && Smooth(o) && Ready(w, box) && !Faithful(raw)
    requires CopyUids(w.server, box, NormaliseKey(ExtractMessageId(raw.headerId).value)) == {}
    ensures var w' := TryAll(o, w, Again(Attempt(box, raw, keywords), n));
            |RawUids(w'.server, box, raw)| == |RawUids(w.server, box, raw)| + n
    decreases n
  {
    hide Upsert, CopyUids, RawUids, ExtractMessageId, NormaliseKey, HasKey, AddMessage, Inv, AppendFlags;
    if n > 0 {
      var attempts := Again(Attempt(box, raw, keywords), n);
      assert attempts[0] == Attempt(box, raw, keywords) && attempts[1..] == Again(Attempt(box, raw, keywords), n - 1);
      SmoothUpsert(o, w, box, raw, keywords);
      var w1 := Upsert(o, w, box, raw, keywords).0;
      UpsertKeeps(o, w, box, raw, keywords);
      QuietIs(w.server, w1.server);
      AddCopies(w.server, box, raw, AppendFlags(keywords), box, NormaliseKey(ExtractMessageId(raw.headerId).value));
      AddRaw(w.server, box, raw, AppendFlags(keywords));
      UnfaithfulPilesUp(o, w1, box, raw, keywords, n - 1);
    }
  }

  /**
   * And where the other id is on the target, such bytes are taken for the message that has
   * it: the upsert answers that they are there, and they are not.
   */
  lemma UnfaithfulIsTakenForAnother(o: Oracle, w: World, box: string, raw: Raw, keywords: seq<Keyword>)
    requires Inv(w.server) && Smooth(o) && Ready(w, box)
    requires ExtractMessageId(raw.headerId).Some? && raw.envelopeId.Some?
    requires CopyUids(w.server, box, NormaliseKey(ExtractMessageId(raw.headerId).value)) != {}
    requires CopyUids(w.server, box, NormaliseKey(raw.envelopeId.value)) == {}
    ensures !Faithful(raw)
    ensures var (w', r) := Upsert(o, w, box, raw, keywords);
            r.Ok? && !r.value.created && CopyUids(w'.server, box, NormaliseKey(raw.envelopeId.value)) == {}
  {
    var id := ExtractMessageId(raw.headerId).value;
    assert Attach(o, w) == w;
    SmoothFind(o, w, box, id);
    FindAnswers(o, w, box, id);
    hide Attach, Find, Append, AppendFlags, AddMessage, ExtractMessageId, NormaliseKey, HasKey, Inv;
    var (w1, existing) := Find(o, w, box, id);
    assert existing.value.Some?;
    SmoothOpen(o, w1, box);
    hide Open, Ready;
  }

  /** Into an empty mailbox, with nobody else at work, two attempts at one message leave it there twice. */
  ghost predicate Doubles(o: Oracle, w: World, box: string, raw: Raw, keywords: seq<Keyword>) {
    && Inv(w.server) && (forall t: nat :: o(t).env == [])
    && box in w.server.boxes && w.server.boxes[box].msgs == map[]
    && |RawUids(TryAll(o, w, Again(Attempt(box, raw, keywords), 2)).server, box, raw)| >= 2
  }

  /** Whatever fails, two attempts at faithful bytes put them into an empty mailbox once at most. */
  lemma FaithfulOnce(o: Oracle, w: World, box: string, raw: Raw, keywords: seq<Keyword>)
    requires Inv(w.server) && (forall t: nat :: o(t).env == []) && Faithful(raw)
    requires box in w.server.boxes && w.server.boxes[box].msgs == map[]
    ensures |RawUids(TryAll(o, w, Again(Attempt(box, raw, keywords), 2)).server, box, raw)| <= 1
  {
    var attempt := Attempt(box, raw, keywords);
    var two := Again(attempt, 2);
    var w' := TryAll(o, w, two);
    assert two == [attempt, attempt] by { assert Again(attempt, 1) == [attempt] + Again(attempt, 0); }
    if ExtractMessageId(raw.headerId).None? {
      WithoutIdNothing(o, w, attempt);
      assert RawUids(w'.server, box, raw) == {};
    } else {
      var key := NormaliseKey(ExtractMessageId(raw.headerId).value);
      hide TryAll, ExtractMessageId, NormaliseKey, Inv;
      AloneIsSilent(o, w.turn, w'.turn, box, key);
      RetrySafe(o, w, two, box, key);
      assert CopyUids(w.server, box, key) == {};
      assert RawUids(w'.server, box, raw) <= CopyUids(w'.server, box, key);
      SubsetSize(RawUids(w'.server, box, raw), CopyUids(w'.server, box, key));
    }
  }

  lemma WithoutIdNothing(o: Oracle, w: World, a: Attempt)
    requires ExtractMessageId(a.raw.headerId).None?
    ensures TryAll(o, w, [a, a]).server == w.server
  {
    AttachKeeps(o, w);
    var w1 := Upsert(o, w, a.box, a.raw, a.keywords).0;
    AttachKeeps(o, w1);
    var w2 := Upsert(o, w1, a.box, a.raw, a.keywords).0;
    assert w1.server == w.server && w2.server == w1.server;
    hide Upsert, Attach, ExtractMessageId;
    assert [a, a][1..] == [a] && [a][1..] == [];
    assert TryAll(o, w1, [a]) == TryAll(o, w2, []);
    assert TryAll(o, w, [a, a]) == TryAll(o, w1, [a]);
  }

  /** A server with this one mailbox, empty. */
  function EmptyBox(box: string): Server {
    Server([box], map[box := Mailbox(1, 1, map[], [])], 2, true, map[], map[], {})
  }

  lemma EmptyBoxInv(box: string)
    ensures Inv(EmptyBox(box))
  {
    assert BoxInv(EmptyBox(box), box);
  }

  /** Retrying may write a message twice exactly if the id the writer finds in it is not the one the server reports. */
  lemma RetryDoublesExactly(box: string, raw: Raw, keywords: seq<Keyword>)
    ensures (exists o: Oracle, w: World :: Doubles(o, w, box, raw, keywords)) <==> !Faithful(raw)
  {
    hide Doubles, Faithful;
    if Faithful(raw) {
      forall o: Oracle, w: World ensures !Doubles(o, w, box, raw, keywords) {
        FaithfulDoesNotDouble(o, w, box, raw, keywords);
      }
    } else {
      var o: Oracle, w := (t: nat) => Turn([], Works), World(EmptyBox(box), 0);
      UnfaithfulDoubles(o, w, box, raw, keywords);
    }
  }

  lemma FaithfulDoesNotDouble(o: Oracle, w: World, box: string, raw: Raw, keywords: seq<Keyword>)
    requires Faithful(raw)
    ensures !Doubles(o, w, box, raw, keywords)
  {
    hide TryAll, RawUids, Inv, Faithful, Again;
    if Inv(w.server) && (forall t: nat :: o(t).env == []) && box in w.server.boxes && w.server.boxes[box].msgs == map[] {
      FaithfulOnce(o, w, box, raw, keywords);
    }
  }

  lemma UnfaithfulDoubles(o: Oracle, w: World, box: string, raw: Raw, keywords: seq<Keyword>)
    requires Smooth(o) && w == World(EmptyBox(box), 0) && !Faithful(raw)
    ensures Doubles(o, w, box, raw, keywords)
  {
    EmptyBoxInv(box);
    var key := NormaliseKey(ExtractMessageId(raw.headerId).value);
    assert CopyUids(w.server, box, key) == {};
    hide NormaliseKey, ExtractMessageId, TryAll, HasKey, Inv, RawUids, Again;
    UnfaithfulPilesUp(o, w, box, raw, keywords, 2);
  }
}
