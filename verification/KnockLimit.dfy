/**
 * The fixed-window knock limiter: one counter per key, deleted lazily and swept when the
 * map grows. Times are whole milliseconds of one clock that never goes back.
 */
module KnockLimit {
  import opened Outcomes

  datatype Config = Config(windowMs: int, max: int)

  datatype Window = Window(count: int, startedAt: int)

  type Windows = map<string, Window>

  const SWEEP_ABOVE: nat := 10000

  // ----- the limiter that never forgets -----

  /** A window still counts while less than `windowMs` has passed since it started. */
  predicate Live(c: Config, ws: Windows, key: string, now: int) {
    key in ws && now - ws[key].startedAt < c.windowMs
  }

  function TakeIdeal(c: Config, ws: Windows, key: string, now: int): (Windows, bool) {
    if !Live(c, ws, key, now) then (ws[key := Window(1, now)], true)
    else if ws[key].count >= c.max then (ws, false)
    else (ws[key := Window(ws[key].count + 1, ws[key].startedAt)], true)
  }

  function CeilDiv1000(ms: int): int {
    (ms + 999) / 1000
  }

  function RetryIdeal(c: Config, ws: Windows, key: string, now: int): int {
    if !Live(c, ws, key, now) then 0
    else
      var seconds := CeilDiv1000(ws[key].startedAt + c.windowMs - now);
      if seconds < 1 then 1 else seconds
  }

  // ----- the limiter as it is written -----

  class KnockLimiter {
    const config: Config
    var windows: Windows
    /** The same counters with nothing ever deleted, and the latest time seen. */
    ghost var ideal: Windows
    ghost var clock: int

    /** What was deleted had run out. */
    ghost predicate Valid()
      reads this
    {
      && (forall k :: k in windows ==> k in ideal && ideal[k] == windows[k])
      && (forall k :: k in ideal && k !in windows ==> clock - ideal[k].startedAt >= config.windowMs)
    }

    constructor (config: Config)
      ensures Valid() && this.config == config && ideal == map[]
    {
      this.config := config;
      windows := map[];
      ideal := map[];
      clock := 0;
    }

    method Current(key: string, now: int) returns (window: Option<Window>)
      requires Valid() && clock <= now
      modifies this
      ensures Valid() && ideal == old(ideal) && clock == now
      ensures window == if Live(config, ideal, key, now) then Some(ideal[key]) else None
      ensures window.Some? ==> key in windows
    {
      clock := now;
      if key !in windows { return None; }
      if now - windows[key].startedAt >= config.windowMs {
        windows := windows - {key};
        return None;
      }
      return Some(windows[key]);
    }

    method Sweep(now: int)
      requires Valid() && clock <= now
      modifies this
      ensures Valid() && ideal == old(ideal) && clock == now
      ensures forall k :: k in windows <==> k in old(windows) && now - old(windows)[k].startedAt < config.windowMs
    {
      clock := now;
      var rest := windows.Keys;
      while rest != {}
        invariant Valid() && ideal == old(ideal) && clock == now
        invariant rest <= windows.Keys <= old(windows).Keys
        invariant forall k :: k in windows ==> windows[k] == old(windows)[k]
        invariant forall k :: k in old(windows) && (k in rest || now - old(windows)[k].startedAt < config.windowMs) ==>
                    k in windows
        invariant forall k :: k in windows && k !in rest ==> now - windows[k].startedAt < config.windowMs
        decreases |rest|
      {
        var k :| k in rest;
        if now - windows[k].startedAt >= config.windowMs { windows := windows - {k}; }
        rest := rest - {k};
      }
    }

    /** Sweeping and deleting make no difference: every answer is the never-forgetting limiter's. */
    method Take(key: string, now: int) returns (accepted: bool)
      requires Valid() && clock <= now
      modifies this
      ensures Valid() && clock == now
      ensures (ideal, accepted) == TakeIdeal(config, old(ideal), key, now)
    {
      if |windows| > SWEEP_ABOVE { Sweep(now); }
      var window := Current(key, now);
      if window.None? {
        windows := windows[key := Window(1, now)];
        ideal := ideal[key := Window(1, now)];
        return true;
      }
      if window.value.count >= config.max { return false; }
      var grown := Window(window.value.count + 1, window.value.startedAt);
      windows := windows[key := grown];
      ideal := ideal[key := grown];
      return true;
    }

    method RetryAfterSeconds(key: string, now: int) returns (seconds: int)
      requires Valid() && clock <= now
      modifies this
      ensures Valid() && clock == now && ideal == old(ideal)
      ensures seconds == RetryIdeal(config, ideal, key, now)
    {
      var window := Current(key, now);
      if window.None? { return 0; }
      var left := CeilDiv1000(window.value.startedAt + config.windowMs - now);
      return if left < 1 then 1 else left;
    }
  }

  // ----- traces -----

  datatype Call = Take(key: string, at: int) | Retry(key: string, at: int)

  datatype Answer = Taken(accepted: bool) | Seconds(s: int)

  /** The counters after a whole trace, from none. */
  function After(c: Config, calls: seq<Call>): Windows {
    if calls == [] then map[]
    else
      var n := |calls| - 1;
      if calls[n].Take? then TakeIdeal(c, After(c, calls[..n]), calls[n].key, calls[n].at).0 else After(c, calls[..n])
  }

  /** What the last call of a trace is answered. */
  function LastAnswer(c: Config, calls: seq<Call>): Answer
    requires calls != []
  {
    var n := |calls| - 1;
    var ws := After(c, calls[..n]);
    if calls[n].Take? then Taken(TakeIdeal(c, ws, calls[n].key, calls[n].at).1)
    else Seconds(RetryIdeal(c, ws, calls[n].key, calls[n].at))
  }

  predicate Clocked(calls: seq<Call>) {
    forall i, j :: 0 <= i < j < |calls| ==> calls[i].at <= calls[j].at
  }

  /** The calls made with one key. */
  function Own(calls: seq<Call>, key: string): seq<Call> {
    if calls == [] then []
    else
      var n := |calls| - 1;
      Own(calls[..n], key) + (if calls[n].key == key then [calls[n]] else [])
  }

  /** A key's counter depends on that key's calls alone. */
  lemma {:induction false} OwnCounter(c: Config, calls: seq<Call>, key: string)
    ensures key in After(c, calls) <==> key in After(c, Own(calls, key))
    ensures key in After(c, calls) ==> After(c, calls)[key] == After(c, Own(calls, key))[key]
    decreases |calls|
  {
    if calls != [] {
      var n := |calls| - 1;
      OwnCounter(c, calls[..n], key);
      var own := Own(calls, key);
      if calls[n].key == key {
        assert own[|own| - 1] == calls[n] && own[..|own| - 1] == Own(calls[..n], key);
      } else {
        assert own == Own(calls[..n], key);
      }
    }
  }

  /** And so does every answer it gets. */
  lemma OwnAnswers(c: Config, calls: seq<Call>)
    requires calls != []
    ensures var own := Own(calls, calls[|calls| - 1].key);
            own != [] && LastAnswer(c, calls) == LastAnswer(c, own)
  {
    var n := |calls| - 1;
    var key := calls[n].key;
    OwnCounter(c, calls[..n], key);
    assert Own(calls, key)[..|Own(calls, key)| - 1] == Own(calls[..n], key);
  }

  // ----- how many can be let through -----

  /** The takes of `key` accepted from `from` on and before `till`. */
  function Accepted(c: Config, calls: seq<Call>, key: string, from: int, till: int): nat {
    if calls == [] then 0
    else
      var n := |calls| - 1;
      Accepted(c, calls[..n], key, from, till)
      + (if calls[n].Take? && calls[n].key == key && from <= calls[n].at < till && LastAnswer(c, calls) == Taken(true)
         then 1 else 0)
  }

  /**
   * The counter accounts for what its own window let through; at most one window before it can reach
   * into the interval.
   */
  lemma {:induction false} AcceptedBound(c: Config, calls: seq<Call>, key: string, from: int)
    requires c.max >= 1 && c.windowMs > 0 && Clocked(calls)
    ensures var a, ws := Accepted(c, calls, key, from, from + c.windowMs), After(c, calls);
            && (calls == [] || calls[|calls| - 1].at < from ==> a == 0)
            && (key !in ws ==> a == 0)
            && (key in ws ==>
                  && 1 <= ws[key].count <= c.max
                  && calls != [] && ws[key].startedAt <= calls[|calls| - 1].at
                  && a <= (if ws[key].startedAt < from then ws[key].count
                           else if ws[key].startedAt < from + c.windowMs then c.max + ws[key].count
                           else 2 * c.max))
    decreases |calls|
  {
    if calls != [] {
      var n := |calls| - 1;
      AcceptedBound(c, calls[..n], key, from);
      if n > 0 { assert calls[..n][n - 1].at <= calls[n].at; }
    }
  }

  /** In any stretch of time as long as a window, at most twice the allowance gets through. */
  lemma AtMostTwiceTheAllowance(c: Config, calls: seq<Call>, key: string, from: int)
    requires c.max >= 1 && c.windowMs > 0 && Clocked(calls)
    ensures Accepted(c, calls, key, from, from + c.windowMs) <= 2 * c.max
  {
    AcceptedBound(c, calls, key, from);
  }

  // ----- when a take is refused -----

  /** Take number `s` begins a window of its key: no window begun before is still running. */
  predicate Begins(c: Config, calls: seq<Call>, s: nat)
    requires s < |calls|
    decreases s
  {
    && calls[s].Take?
    && forall r: nat :: r < s && calls[r].key == calls[s].key && Begins(c, calls, r) ==>
         calls[s].at - calls[r].at >= c.windowMs
  }

  /** The takes of `key` accepted from number `s` on. */
  function AcceptedSince(c: Config, calls: seq<Call>, key: string, s: nat): set<nat> {
    set i: nat | s <= i < |calls| && calls[i] == Take(key, calls[i].at) && LastAnswer(c, calls[..i + 1]) == Taken(true)
  }

  lemma {:induction false} BeginsBefore(c: Config, calls: seq<Call>, n: nat, s: nat)
    requires s < n <= |calls|
    ensures Begins(c, calls[..n], s) <==> Begins(c, calls, s)
    decreases s
  {
    forall r: nat | r < s ensures Begins(c, calls[..n], r) <==> Begins(c, calls, r) { BeginsBefore(c, calls, n, r); }
  }

  lemma AcceptedSnoc(c: Config, calls: seq<Call>, key: string, s: nat)
    requires calls != [] && s < |calls|
    ensures var n := |calls| - 1;
            AcceptedSince(c, calls, key, s)
              == AcceptedSince(c, calls[..n], key, s)
                 + (if calls[n] == Take(key, calls[n].at) && LastAnswer(c, calls) == Taken(true) then {n} else {})
  {
    var n := |calls| - 1;
    assert calls[..n + 1] == calls;
    forall i: nat | s <= i < n
      ensures i in AcceptedSince(c, calls, key, s) <==> i in AcceptedSince(c, calls[..n], key, s)
    {
      assert calls[..n][..i + 1] == calls[..i + 1];
    }
  }

  /** No call with this key from number `s` on begins a window. */
  ghost predicate NoneBegins(c: Config, calls: seq<Call>, key: string, s: nat) {
    forall r: nat :: s <= r < |calls| && calls[r].key == key ==> !Begins(c, calls, r)
  }

  /** What a key's counter stands for: the last window begun, and what was accepted since. */
  ghost predicate Stands(c: Config, calls: seq<Call>, key: string, s: nat) {
    var ws := After(c, calls);
    if key in ws then
      && s < |calls| && calls[s].key == key && Begins(c, calls, s)
      && ws[key] == Window(|AcceptedSince(c, calls, key, s)|, calls[s].at)
      && NoneBegins(c, calls, key, s + 1)
    else NoneBegins(c, calls, key, 0)
  }

  /** One more call begins no window: none begins after `s`, if none did before. */
  lemma StillNone(c: Config, calls: seq<Call>, key: string, s: nat)
    requires calls != [] && NoneBegins(c, calls[..|calls| - 1], key, s)
    requires forall r: nat :: r < |calls| - 1 ==> (Begins(c, calls[..|calls| - 1], r) <==> Begins(c, calls, r))
    requires calls[|calls| - 1].key == key ==> !Begins(c, calls, |calls| - 1)
    ensures NoneBegins(c, calls, key, s)
  {
    hide Begins;
  }

  lemma {:induction false} CounterStands(c: Config, calls: seq<Call>, key: string) returns (s: nat)
    requires Clocked(calls)
    ensures Stands(c, calls, key, s)
    decreases |calls|
  {
    s := 0;
    if calls != [] {
      var n := |calls| - 1;
      var before := CounterStands(c, calls[..n], key);
      s := before;
      forall r: nat | r < n ensures Begins(c, calls[..n], r) <==> Begins(c, calls, r) { BeginsBefore(c, calls, n, r); }
      var ws := After(c, calls[..n]);
      if calls[n] == Take(key, calls[n].at) && !Live(c, ws, key, calls[n].at) {
        s := n;
        hide Begins;
        NewWindow(c, calls, key, before);
      } else {
        StillRunning(c, calls, key, before);
        hide Begins;
        SameWindow(c, calls, key, before);
      }
    }
  }

  lemma NewWindow(c: Config, calls: seq<Call>, key: string, before: nat)
    requires calls != [] && Clocked(calls)
    requires var n := |calls| - 1;
             && calls[n] == Take(key, calls[n].at) && !Live(c, After(c, calls[..n]), key, calls[n].at)
             && Stands(c, calls[..n], key, before)
             && forall r: nat :: r < n ==> (Begins(c, calls[..n], r) <==> Begins(c, calls, r))
    ensures Stands(c, calls, key, |calls| - 1)
  {
    var n := |calls| - 1;
    forall r: nat | r < n && calls[r].key == key && Begins(c, calls, r) ensures calls[n].at - calls[r].at >= c.windowMs {
      assert Begins(c, calls[..n], r);
      assert r <= before && calls[r].at <= calls[before].at;
    }
    AcceptedSnoc(c, calls, key, n);
    assert AcceptedSince(c, calls[..n], key, n) == {};
    assert AcceptedSince(c, calls, key, n) == {n};
  }

  /** A take while a window is running does not begin one. */
  lemma StillRunning(c: Config, calls: seq<Call>, key: string, before: nat)
    requires calls != []
    requires var n := |calls| - 1;
             && !(calls[n] == Take(key, calls[n].at) && !Live(c, After(c, calls[..n]), key, calls[n].at))
             && Stands(c, calls[..n], key, before)
             && forall r: nat :: r < n ==> (Begins(c, calls[..n], r) <==> Begins(c, calls, r))
    ensures calls[|calls| - 1].key == key ==> !Begins(c, calls, |calls| - 1)
  {
    hide AcceptedSince;
    var n := |calls| - 1;
    if calls[n].key == key && calls[n].Take? {
      assert calls[n] == Take(key, calls[n].at);
      assert calls[..n][before] == calls[before] && Begins(c, calls, before);
      assert calls[n].at - calls[before].at < c.windowMs;
    }
  }

  /**
   * Such a call counts in the window, if it is a take of the key that is accepted, and leaves it
   * otherwise as it was.
   */
  lemma CountedIn(c: Config, calls: seq<Call>, key: string)
    requires calls != []
    requires var n := |calls| - 1;
             !(calls[n] == Take(key, calls[n].at) && !Live(c, After(c, calls[..n]), key, calls[n].at))
    ensures var n := |calls| - 1;
            var ws, counts := After(c, calls[..n]), calls[n] == Take(key, calls[n].at) && LastAnswer(c, calls) == Taken(true);
            && (key in After(c, calls) <==> key in ws)
            && (key in ws ==> After(c, calls)[key] == Window(ws[key].count + if counts then 1 else 0, ws[key].startedAt))
  {
  }

  lemma OneMoreAccepted(c: Config, calls: seq<Call>, key: string, s: nat)
    requires calls != [] && s < |calls|
    ensures var n := |calls| - 1;
            |AcceptedSince(c, calls, key, s)|
              == |AcceptedSince(c, calls[..n], key, s)|
                 + (if calls[n] == Take(key, calls[n].at) && LastAnswer(c, calls) == Taken(true) then 1 else 0)
  {
    AcceptedSnoc(c, calls, key, s);
    var n := |calls| - 1;
    assert n !in AcceptedSince(c, calls[..n], key, s);
    hide AcceptedSince, LastAnswer;
  }

  lemma SameWindow(c: Config, calls: seq<Call>, key: string, before: nat)
    requires calls != []
    requires var n := |calls| - 1;
             && !(calls[n] == Take(key, calls[n].at) && !Live(c, After(c, calls[..n]), key, calls[n].at))
             && Stands(c, calls[..n], key, before)
             && (forall r: nat :: r < n ==> (Begins(c, calls[..n], r) <==> Begins(c, calls, r)))
             && (calls[n].key == key ==> !Begins(c, calls, n))
    ensures Stands(c, calls, key, before)
  {
    hide Begins, AcceptedSince, After, Live, LastAnswer, NoneBegins;
    CountedIn(c, calls, key);
    var n := |calls| - 1;
    if key in After(c, calls[..n]) {
      OneMoreAccepted(c, calls, key, before);
      StillNone(c, calls, key, before + 1);
      assert calls[..n][before] == calls[before] && Begins(c, calls, before);
    } else {
      StillNone(c, calls, key, 0);
    }
  }

  /** A window of the last caller's key is running, and `max` takes have been accepted in it already. */
  ghost predicate UsedUp(c: Config, calls: seq<Call>, s: nat)
    requires calls != []
  {
    var n := |calls| - 1;
    && s < n && calls[s].key == calls[n].key && Begins(c, calls, s) && calls[n].at - calls[s].at < c.windowMs
    && |AcceptedSince(c, calls[..n], calls[n].key, s)| >= c.max
  }

  /**
   * A take is refused exactly when the window of its key is running and `max` takes of it have been
   * accepted since it began.
   */
  lemma RefusedExactly(c: Config, calls: seq<Call>)
    requires Clocked(calls) && calls != [] && calls[|calls| - 1].Take?
    ensures LastAnswer(c, calls) == Taken(false) <==> exists s: nat :: UsedUp(c, calls, s)
  {
    var n := |calls| - 1;
    var key := calls[n].key;
    var at := CounterStands(c, calls[..n], key);
    forall r: nat | r < n ensures Begins(c, calls[..n], r) <==> Begins(c, calls, r) { BeginsBefore(c, calls, n, r); }
    hide Begins, AcceptedSince;
    var ws := After(c, calls[..n]);
    if LastAnswer(c, calls) == Taken(false) {
      assert Live(c, ws, key, calls[n].at) && ws[key].count >= c.max;
      assert UsedUp(c, calls, at);
    }
    if s: nat :| UsedUp(c, calls, s) {
      assert Begins(c, calls[..n], s) && calls[..n][s].key == key;
      OnlyOneRuns(c, calls, s, at);
    }
  }

  /** Of one key's windows only the last can be running. */
  lemma OnlyOneRuns(c: Config, calls: seq<Call>, s: nat, at: nat)
    requires Clocked(calls) && calls != [] && UsedUp(c, calls, s)
    requires var n := |calls| - 1;
             && at < n && calls[at].key == calls[n].key && Begins(c, calls, at)
             && forall r: nat :: at < r < n && calls[r].key == calls[n].key ==> !Begins(c, calls, r)
    ensures s == at
  {
    hide AcceptedSince;
  }

  /**
   * Asked for the time to wait: nothing if no window of the key is running, else the seconds to its
   * end, rounded up.
   */
  lemma SecondsExactly(c: Config, calls: seq<Call>) returns (s: nat)
    requires Clocked(calls) && calls != [] && calls[|calls| - 1].Retry?
    ensures var n := |calls| - 1;
            var runs := s < n && calls[s].key == calls[n].key && Begins(c, calls, s) && calls[n].at - calls[s].at < c.windowMs;
            && LastAnswer(c, calls).Seconds?
            && var seconds := LastAnswer(c, calls).s;
               && (seconds == 0 <==> !runs)
               && (runs ==> 1000 * (seconds - 1) < calls[s].at + c.windowMs - calls[n].at <= 1000 * seconds)
               && (!runs ==> forall r: nat :: r < n && calls[r].key == calls[n].key && Begins(c, calls, r) ==>
                     calls[n].at - calls[r].at >= c.windowMs)
  {
    var n := |calls| - 1;
    var key := calls[n].key;
    s := CounterStands(c, calls[..n], key);
    forall r: nat | r < n ensures Begins(c, calls[..n], r) <==> Begins(c, calls, r) { BeginsBefore(c, calls, n, r); }
    hide Begins, AcceptedSince;
    var ws := After(c, calls[..n]);
    if key !in ws && s < n && calls[s].key == key {
      assert calls[..n][s].key == key && !Begins(c, calls[..n], s);
    }
    forall r: nat | r < n && calls[r].key == key && Begins(c, calls, r) ensures r <= s && key in ws {
      assert Begins(c, calls[..n], r) && calls[..n][r].key == key;
    }
  }

  // ----- what a refused caller is told -----

  /**
   * A refused caller who waits the seconds it was told, and makes no call meanwhile, is
   * let in, whatever other callers do; one who waits a whole second less is not.
   */
  lemma RetryAfterIsEnough(c: Config, calls: seq<Call>, others: seq<Call>, key: string, now: int, later: int)
    requires LastAnswer(c, calls + [Take(key, now)]) == Taken(false)
    requires forall i :: 0 <= i < |others| ==> others[i].key != key
    ensures var before := calls + [Take(key, now)];
            && LastAnswer(c, before + [Retry(key, now)]).Seconds?
            && var s := LastAnswer(c, before + [Retry(key, now)]).s;
               && (later >= now + 1000 * s ==> LastAnswer(c, before + others + [Take(key, later)]) == Taken(true))
               && (now <= later <= now + 1000 * (s - 1) ==>
                     LastAnswer(c, before + others + [Take(key, later)]) == Taken(false))
  {
    var before := calls + [Take(key, now)];
    var asked, retried := before + [Retry(key, now)], before + others + [Take(key, later)];
    assert before[..|before| - 1] == calls && asked[..|asked| - 1] == before;
    assert retried[..|retried| - 1] == before + others;
    OthersChangeNothing(c, before, others, key);
  }

  lemma {:induction false} OthersChangeNothing(c: Config, before: seq<Call>, others: seq<Call>, key: string)
    requires forall i :: 0 <= i < |others| ==> others[i].key != key
    ensures key in After(c, before + others) <==> key in After(c, before)
    ensures key in After(c, before) ==> After(c, before + others)[key] == After(c, before)[key]
    decreases |others|
  {
    if others == [] {
      assert before + others == before;
    } else {
      var n := |others| - 1;
      assert (before + others)[..|before + others| - 1] == before + others[..n];
      OthersChangeNothing(c, before, others[..n], key);
    }
  }
}
