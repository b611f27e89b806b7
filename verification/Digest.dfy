/**
 * What the appliance's digest collects: one row per reporting mapping, a failed read as a
 * blind spot in it, and the decisions of a tenant counted once.
 */
module Digest {
  import opened Outcomes
  import opened Sequences

  /** The reads of a row, in the order they are made. */
  datatype What = Status | Deletions | Moves | Failures | AutoApplied | SharingOpen | Decisions

  /** A configured mapping, and what its reads answer or that they throw. */
  datatype Source = Source(
    mappingId: string, tenantId: string,
    status: Result<Option<string>>,
    deletions: Result<seq<string>>, moves: Result<seq<string>>, failures: Result<seq<string>>,
    autoApplied: Result<nat>, sharingOpen: Result<nat>)

  /** What is handed to the summary of one mapping. */
  datatype Row = Row(
    mappingId: string, status: Option<string>,
    deletions: seq<string>, moves: seq<string>, failures: seq<string>,
    autoApplied: nat, sharingOpen: nat, pendingDecisions: nat, blindSpots: seq<What>)

  /** `countPendingDecisions` of a tenant. */
  type Counts = string -> Result<nat>

  /** `reportsToDigest`, whatever it is. */
  type Reports = Option<string> -> bool

  // ----- the program -----

  /** One guarded read: its answer, or the fallback and one more blind spot. */
  function Guarded<T>(read: Result<T>, fallback: T): T {
    match read
    case Ok(value) => value
    case Err => fallback
  }

  function Blind<T>(read: Result<T>, what: What): seq<What> {
    if read.Err? then [what] else []
  }

  predicate IsReporting(s: Source, reports: Reports) {
    reports(Guarded(s.status, None))
  }

  function RowOf(s: Source, first: bool, decisions: Counts): Row {
    Row(s.mappingId, Guarded(s.status, None),
        Guarded(s.deletions, []), Guarded(s.moves, []), Guarded(s.failures, []),
        Guarded(s.autoApplied, 0), Guarded(s.sharingOpen, 0),
        if first then Guarded(decisions(s.tenantId), 0) else 0,
        Blind(s.status, Status) + Blind(s.deletions, Deletions) + Blind(s.moves, Moves)
        + Blind(s.failures, Failures) + Blind(s.autoApplied, AutoApplied) + Blind(s.sharingOpen, SharingOpen)
        + (if first then Blind(decisions(s.tenantId), Decisions) else []))
  }

  function Reporting(sources: seq<Source>, reports: Reports): seq<Source> {
    if sources == [] then []
    else
      var last := sources[|sources| - 1];
      Reporting(sources[..|sources| - 1], reports) + (if IsReporting(last, reports) then [last] else [])
  }

  function TenantsOf(sources: seq<Source>): set<string> {
    set s | s in sources :: s.tenantId
  }

  function Rows(reporting: seq<Source>, decisions: Counts): seq<Row> {
    if reporting == [] then []
    else
      var before, last := reporting[..|reporting| - 1], reporting[|reporting| - 1];
      Rows(before, decisions) + [RowOf(last, last.tenantId !in TenantsOf(before), decisions)]
  }

  lemma NoRows(decisions: Counts, reports: Reports)
    ensures Reporting([], reports) == [] && Rows([], decisions) == [] && TenantsOf([]) == {}
  {
  }

  lemma RowsSnoc(before: seq<Source>, last: Source, decisions: Counts)
    ensures Rows(before + [last], decisions)
         == Rows(before, decisions) + [RowOf(last, last.tenantId !in TenantsOf(before), decisions)]
  {
    var all := before + [last];
    assert all[..|all| - 1] == before && all[|all| - 1] == last;
    hide RowOf, TenantsOf;
  }

  lemma ReportingSnoc(before: seq<Source>, last: Source, reports: Reports)
    ensures Reporting(before + [last], reports)
         == Reporting(before, reports) + (if IsReporting(last, reports) then [last] else [])
  {
    var all := before + [last];
    assert all[..|all| - 1] == before && all[|all| - 1] == last;
  }

  lemma TenantsSnoc(before: seq<Source>, last: Source)
    ensures TenantsOf(before + [last]) == TenantsOf(before) + {last.tenantId}
  {
    var all := before + [last];
    forall t | t in TenantsOf(before) + {last.tenantId} ensures t in TenantsOf(all) {
      if t != last.tenantId {
        var s :| s in before && s.tenantId == t;
        assert s in all;
      } else {
        assert last in all;
      }
    }
  }

  method CollectAttention(sources: seq<Source>, decisions: Counts, reports: Reports) returns (out: seq<Row>)
    ensures out == Rows(Reporting(sources, reports), decisions)
  {
    hide Rows, Reporting, TenantsOf;
    out := [];
    var decisionsCountedFor: set<string> := {};
    NoRows(decisions, reports);
    for i := 0 to |sources|
      invariant out == Rows(Reporting(sources[..i], reports), decisions)
      invariant decisionsCountedFor == TenantsOf(Reporting(sources[..i], reports))
    {
      ghost var before := Reporting(sources[..i], reports);
      var mapping := sources[i];
      assert sources[..i + 1] == sources[..i] + [mapping];
      ReportingSnoc(sources[..i], mapping, reports);
      RowsSnoc(before, mapping, decisions);
      TenantsSnoc(before, mapping);
      var blindSpots := Blind(mapping.status, Status);
      var status := Guarded(mapping.status, None);
      if !reports(status) {
        assert before + [] == before;
        continue;
      }
      var deletions := Guarded(mapping.deletions, []);
      blindSpots := blindSpots + Blind(mapping.deletions, Deletions);
      var moves := Guarded(mapping.moves, []);
      blindSpots := blindSpots + Blind(mapping.moves, Moves);
      var failures := Guarded(mapping.failures, []);
      blindSpots := blindSpots + Blind(mapping.failures, Failures);
      var autoApplied := Guarded(mapping.autoApplied, 0);
      blindSpots := blindSpots + Blind(mapping.autoApplied, AutoApplied);
      var sharingOpen := Guarded(mapping.sharingOpen, 0);
      blindSpots := blindSpots + Blind(mapping.sharingOpen, SharingOpen);
      var first := mapping.tenantId !in decisionsCountedFor;
      decisionsCountedFor := decisionsCountedFor + {mapping.tenantId};
      var pendingDecisions := 0;
      if first {
        var count := decisions(mapping.tenantId);
        pendingDecisions := Guarded(count, 0);
        blindSpots := blindSpots + Blind(count, Decisions);
      }
      assert !first ==> blindSpots + [] == blindSpots;
      out := out + [Row(mapping.mappingId, status, deletions, moves, failures, autoApplied, sharingOpen,
                        pendingDecisions, blindSpots)];
    }
    assert sources[..|sources|] == sources;
  }

  // ----- decisions are counted once per tenant -----

  function PendingIn(rows: seq<Row>): nat {
    if rows == [] then 0 else PendingIn(rows[..|rows| - 1]) + rows[|rows| - 1].pendingDecisions
  }

  /** The pending decisions of a set of tenants, a count that could not be read being none. */
  ghost function PendingOf(tenants: set<string>, decisions: Counts): nat {
    if tenants == {} then 0
    else
      var t :| t in tenants;
      Guarded(decisions(t), 0) + PendingOf(tenants - {t}, decisions)
  }

  lemma {:induction false} PendingOfOne(tenants: set<string>, t: string, decisions: Counts)
    requires t in tenants
    ensures PendingOf(tenants, decisions) == Guarded(decisions(t), 0) + PendingOf(tenants - {t}, decisions)
  {
    var chosen :| chosen in tenants
      && PendingOf(tenants, decisions) == Guarded(decisions(chosen), 0) + PendingOf(tenants - {chosen}, decisions);
    if chosen != t {
      PendingOfOne(tenants - {chosen}, t, decisions);
      PendingOfOne(tenants - {t}, chosen, decisions);
      assert tenants - {chosen} - {t} == tenants - {t} - {chosen};
    }
  }

  /** The counts in the rows add up to one count per tenant that has a reporting mapping. */
  lemma {:induction false} CountedOncePerTenant(reporting: seq<Source>, decisions: Counts)
    ensures PendingIn(Rows(reporting, decisions)) == PendingOf(TenantsOf(reporting), decisions)
  {
    if reporting == [] {
      assert TenantsOf(reporting) == {};
    } else {
      var before, last := reporting[..|reporting| - 1], reporting[|reporting| - 1];
      CountedOncePerTenant(before, decisions);
      TenantsSnoc(before, last);
      RowsSnoc(before, last, decisions);
      assert before + [last] == reporting;
      var rows := Rows(before, decisions);
      var row := RowOf(last, last.tenantId !in TenantsOf(before), decisions);
      assert row.pendingDecisions == if last.tenantId !in TenantsOf(before) then Guarded(decisions(last.tenantId), 0) else 0;
      hide RowOf, Rows;
      assert (rows + [row])[..|rows|] == rows;
      if last.tenantId in TenantsOf(before) {
        assert TenantsOf(before) + {last.tenantId} == TenantsOf(before);
      } else {
        PendingOfOne(TenantsOf(reporting), last.tenantId, decisions);
        assert TenantsOf(reporting) - {last.tenantId} == TenantsOf(before);
      }
    }
  }

  lemma {:induction false} ReportingExactly(sources: seq<Source>, reports: Reports, s: Source)
    ensures s in Reporting(sources, reports) <==> s in sources && IsReporting(s, reports)
  {
    if sources != [] {
      var n := |sources| - 1;
      ReportingExactly(sources[..n], reports, s);
      assert sources == sources[..n] + [sources[n]];
    }
  }

  /** So the total is the same in whatever order the mappings are configured. */
  lemma TotalIgnoresOrder(sources: seq<Source>, others: seq<Source>, decisions: Counts, reports: Reports)
    requires multiset(sources) == multiset(others)
    ensures PendingIn(Rows(Reporting(sources, reports), decisions)) == PendingIn(Rows(Reporting(others, reports), decisions))
  {
    var a, b := Reporting(sources, reports), Reporting(others, reports);
    CountedOncePerTenant(a, decisions);
    CountedOncePerTenant(b, decisions);
    forall s ensures s in a <==> s in b {
      ReportingExactly(sources, reports, s);
      ReportingExactly(others, reports, s);
      assert s in sources <==> s in multiset(sources);
      assert s in others <==> s in multiset(others);
    }
    assert TenantsOf(a) == TenantsOf(b);
  }

  /** Which row carries a tenant's count: the first of the tenant's reporting mappings, and no other. */
  lemma {:induction false} CarriedByTheFirst(reporting: seq<Source>, decisions: Counts, k: nat)
    requires k < |reporting|
    ensures |Rows(reporting, decisions)| == |reporting|
    ensures Rows(reporting, decisions)[k]
         == RowOf(reporting[k], forall j :: 0 <= j < k ==> reporting[j].tenantId != reporting[k].tenantId, decisions)
  {
    hide RowOf, Rows, TenantsOf;
    RowsCount(reporting, decisions);
    var n := |reporting| - 1;
    var before := reporting[..n];
    RowsCount(before, decisions);
    RowsSnoc(before, reporting[n], decisions);
    assert before + [reporting[n]] == reporting;
    if k < n {
      CarriedByTheFirst(before, decisions, k);
    } else {
      TenantBefore(before, reporting[n].tenantId);
    }
  }

  lemma TenantBefore(before: seq<Source>, t: string)
    ensures t in TenantsOf(before) <==> exists j :: 0 <= j < |before| && before[j].tenantId == t
  {
    if j :| 0 <= j < |before| && before[j].tenantId == t { assert before[j] in before; }
  }

  lemma {:induction false} RowsCount(reporting: seq<Source>, decisions: Counts)
    ensures |Rows(reporting, decisions)| == |reporting|
  {
    if reporting != [] { RowsCount(reporting[..|reporting| - 1], decisions); }
  }

  // ----- a failed read is a blind spot, never a zero -----

  /** Whether a read of this row was made and failed. */
  predicate Failed(s: Source, what: What, first: bool, decisions: Counts) {
    match what
    case Status => s.status.Err?
    case Deletions => s.deletions.Err?
    case Moves => s.moves.Err?
    case Failures => s.failures.Err?
    case AutoApplied => s.autoApplied.Err?
    case SharingOpen => s.sharingOpen.Err?
    case Decisions => first && decisions(s.tenantId).Err?
  }

  lemma {:induction false} BlindCounts<T>(read: Result<T>, what: What, other: What)
    ensures multiset(Blind(read, what))[other] == if read.Err? && what == other then 1 else 0
  {
    if read.Err? { assert multiset([what]) == multiset{what}; }
  }

  /** Every failed read of a row is exactly one blind spot in it, and there are no others. */
  lemma BlindSpotsExactly(s: Source, first: bool, decisions: Counts, what: What)
    ensures Spots(RowOf(s, first, decisions), what) == if Failed(s, what, first, decisions) then 1 else 0
  {
    BlindCounts(s.status, Status, what);
    BlindCounts(s.deletions, Deletions, what);
    BlindCounts(s.moves, Moves, what);
    BlindCounts(s.failures, Failures, what);
    BlindCounts(s.autoApplied, AutoApplied, what);
    BlindCounts(s.sharingOpen, SharingOpen, what);
    BlindCounts(decisions(s.tenantId), Decisions, what);
    hide Blind;
  }

  /** How often a read is among the blind spots of a row. */
  function Spots(row: Row, what: What): nat {
    multiset(row.blindSpots)[what]
  }

  /** A field of a row holds what its read answered, or nothing if that failed. */
  predicate Holds<T(==)>(field: T, read: Result<T>, nothing: T) {
    if read.Ok? then field == read.value else field == nothing
  }

  /** The row says of its mapping what the reads answered, and which of them failed. */
  predicate Tells(row: Row, s: Source, first: bool, decisions: Counts) {
    && row.mappingId == s.mappingId
    && Holds(row.status, s.status, None)
    && Holds(row.deletions, s.deletions, [])
    && Holds(row.moves, s.moves, [])
    && Holds(row.failures, s.failures, [])
    && Holds(row.autoApplied, s.autoApplied, 0)
    && Holds(row.sharingOpen, s.sharingOpen, 0)
    && (if first then Holds(row.pendingDecisions, decisions(s.tenantId), 0) else row.pendingDecisions == 0)
    && forall what: What :: multiset(row.blindSpots)[what] == if Failed(s, what, first, decisions) then 1 else 0
  }

  lemma RowFields(s: Source, first: bool, decisions: Counts)
    ensures var row := RowOf(s, first, decisions);
            && row.mappingId == s.mappingId
            && Holds(row.status, s.status, None)
            && Holds(row.deletions, s.deletions, [])
            && Holds(row.moves, s.moves, [])
            && Holds(row.failures, s.failures, [])
            && Holds(row.autoApplied, s.autoApplied, 0)
            && Holds(row.sharingOpen, s.sharingOpen, 0)
            && (if first then Holds(row.pendingDecisions, decisions(s.tenantId), 0) else row.pendingDecisions == 0)
  {
    hide Blind;
  }

  lemma RowTells(s: Source, first: bool, decisions: Counts)
    ensures Tells(RowOf(s, first, decisions), s, first, decisions)
  {
    hide RowOf, Failed, Holds;
    RowFields(s, first, decisions);
    forall what: What
      ensures multiset(RowOf(s, first, decisions).blindSpots)[what] == if Failed(s, what, first, decisions) then 1 else 0
    {
      BlindSpotsExactly(s, first, decisions, what);
    }
  }

  lemma {:induction false} ReportingPicked(sources: seq<Source>, reports: Reports) returns (at: seq<nat>)
    ensures Picks(sources, (s: Source) => reports(if s.status.Ok? then s.status.value else None), at)
    ensures |Reporting(sources, reports)| == |at|
    ensures forall k :: 0 <= k < |at| ==> at[k] < |sources| && Reporting(sources, reports)[k] == sources[at[k]]
  {
    var wanted := (s: Source) => reports(if s.status.Ok? then s.status.value else None);
    PicksNothing(wanted);
    hide Picks;
    at := [];
    if sources != [] {
      var before, last := sources[..|sources| - 1], sources[|sources| - 1];
      var earlier := ReportingPicked(before, reports);
      assert IsReporting(last, reports) == wanted(last);
      hide IsReporting;
      assert sources == before + [last];
      ReportingSnoc(before, last, reports);
      hide Reporting;
      PicksSnoc(before, last, wanted, earlier);
      at := OneMore(before, last, wanted, earlier);
    }
  }

  /**
   * The digest's rows, told from the reads: one for each mapping whose status, if it could be
   * read, reports, in the order configured; each field what its own read answered; the pending
   * decisions on the first row of their tenant; and each failed read a blind spot.
   */
  lemma RowsExactly(sources: seq<Source>, decisions: Counts, reports: Reports) returns (at: seq<nat>)
    ensures Picks(sources, (s: Source) => reports(if s.status.Ok? then s.status.value else None), at)
    ensures var rows := Rows(Reporting(sources, reports), decisions);
            && |rows| == |at|
            && forall k :: 0 <= k < |at| ==>
                 Tells(rows[k], sources[at[k]],
                       forall j :: 0 <= j < k ==> sources[at[j]].tenantId != sources[at[k]].tenantId, decisions)
  {
    hide Tells, RowOf, Rows, Picks;
    at := ReportingPicked(sources, reports);
    var reporting := Reporting(sources, reports);
    RowsCount(reporting, decisions);
    forall k | 0 <= k < |at|
      ensures Tells(Rows(reporting, decisions)[k], sources[at[k]],
                    forall j :: 0 <= j < k ==> sources[at[j]].tenantId != sources[at[k]].tenantId, decisions)
    {
      CarriedByTheFirst(reporting, decisions, k);
      var first := forall j :: 0 <= j < k ==> reporting[j].tenantId != reporting[k].tenantId;
      RowTells(reporting[k], first, decisions);
      assert first <==> forall j :: 0 <= j < k ==> sources[at[j]].tenantId != sources[at[k]].tenantId;
    }
  }

  function BlindTo(rows: seq<Row>, what: What): nat {
    if rows == [] then 0 else BlindTo(rows[..|rows| - 1], what) + Spots(rows[|rows| - 1], what)
  }

  ghost function Unreadable(tenants: set<string>, decisions: Counts): set<string> {
    set t | t in tenants && decisions(t).Err?
  }

  lemma OneMoreTenant(tenants: set<string>, t: string, decisions: Counts)
    requires t !in tenants
    ensures |Unreadable(tenants + {t}, decisions)|
         == |Unreadable(tenants, decisions)| + (if decisions(t).Err? then 1 else 0)
    ensures PendingOf(tenants + {t}, decisions) == PendingOf(tenants, decisions) + Guarded(decisions(t), 0)
  {
    assert Unreadable(tenants + {t}, decisions)
        == Unreadable(tenants, decisions) + if decisions(t).Err? then {t} else {};
    PendingOfOne(tenants + {t}, t, decisions);
    assert tenants + {t} - {t} == tenants;
  }

  /** A decision queue that could not be read is reported once for each tenant it failed for. */
  lemma {:induction false} BlindToDecisionsOncePerTenant(reporting: seq<Source>, decisions: Counts)
    ensures BlindTo(Rows(reporting, decisions), Decisions) == |Unreadable(TenantsOf(reporting), decisions)|
  {
    hide RowOf, Spots, Rows, TenantsOf, Unreadable;
    if reporting == [] {
      NoRowsNoSpots(decisions);
    } else {
      var before, last := reporting[..|reporting| - 1], reporting[|reporting| - 1];
      BlindToDecisionsOncePerTenant(before, decisions);
      assert before + [last] == reporting;
      OneMoreRow(before, last, decisions);
    }
  }

  lemma NoRowsNoSpots(decisions: Counts)
    ensures BlindTo(Rows([], decisions), Decisions) == |Unreadable(TenantsOf([]), decisions)|
  {
    assert Unreadable(TenantsOf([]), decisions) == {};
  }

  lemma OneMoreRow(before: seq<Source>, last: Source, decisions: Counts)
    ensures BlindTo(Rows(before + [last], decisions), Decisions) - BlindTo(Rows(before, decisions), Decisions)
         == |Unreadable(TenantsOf(before + [last]), decisions)| - |Unreadable(TenantsOf(before), decisions)|
  {
    hide RowOf, Spots, Rows, TenantsOf, Unreadable, BlindTo;
    var first := last.tenantId !in TenantsOf(before);
    var row := RowOf(last, first, decisions);
    RowsSnoc(before, last, decisions);
    BlindToSnoc(Rows(before, decisions), row, Decisions);
    BlindSpotsExactly(last, first, decisions, Decisions);
    TenantsSnoc(before, last);
    if first {
      OneMoreTenant(TenantsOf(before), last.tenantId, decisions);
    } else {
      assert TenantsOf(before) + {last.tenantId} == TenantsOf(before);
    }
  }

  lemma BlindToSnoc(rows: seq<Row>, row: Row, what: What)
    ensures BlindTo(rows + [row], what) == BlindTo(rows, what) + Spots(row, what)
  {
    assert (rows + [row])[..|rows|] == rows;
  }

  // ----- the tenant's own total -----

  datatype TenantAttention = TenantAttention(pendingDecisions: Option<nat>, blindSpots: Option<nat>)

  lemma NoTenants(decisions: Counts)
    ensures TenantsOf([]) == {} && PendingOf({}, decisions) == 0 && Unreadable({}, decisions) == {}
  {
  }

  lemma TenantsUpTo(sources: seq<Source>, i: nat)
    requires i < |sources|
    ensures TenantsOf(sources[..i + 1]) == TenantsOf(sources[..i]) + {sources[i].tenantId}
    ensures sources[i].tenantId in TenantsOf(sources[..i]) ==> TenantsOf(sources[..i + 1]) == TenantsOf(sources[..i])
  {
    assert sources[..i + 1] == sources[..i] + [sources[i]];
    TenantsSnoc(sources[..i], sources[i]);
  }

  lemma GuardedIs(read: Result<nat>)
    ensures Guarded(read, 0) == if read.Ok? then read.value else 0
  {
  }

  /** The same decisions asked for every configured tenant; the number of blind spots stands for them. */
  method CollectTenantAttention(sources: seq<Source>, decisions: Counts) returns (r: TenantAttention)
    ensures r.pendingDecisions
         == (if PendingOf(TenantsOf(sources), decisions) > 0 then Some(PendingOf(TenantsOf(sources), decisions)) else None)
    ensures r.blindSpots
         == (if Unreadable(TenantsOf(sources), decisions) != {} then Some(|Unreadable(TenantsOf(sources), decisions)|) else None)
  {
    var seen: set<string> := {};
    var pendingDecisions, blindSpots := 0, 0;
    NoTenants(decisions);
    assert sources[..0] == [];
    hide TenantsOf, PendingOf, Unreadable, Guarded;
    for i := 0 to |sources|
      invariant seen == TenantsOf(sources[..i])
      invariant pendingDecisions == PendingOf(seen, decisions)
      invariant blindSpots == |Unreadable(seen, decisions)|
    {
      var tenant := sources[i].tenantId;
      TenantsUpTo(sources, i);
      if tenant in seen { continue; }
      OneMoreTenant(seen, tenant, decisions);
      seen := seen + {tenant};
      GuardedIs(decisions(tenant));
      match decisions(tenant) {
        case Ok(count) => pendingDecisions := pendingDecisions + count;
        case Err => blindSpots := blindSpots + 1;
      }
    }
    assert sources[..|sources|] == sources;
    r := TenantAttention(if pendingDecisions > 0 then Some(pendingDecisions) else None,
                         if blindSpots > 0 then Some(blindSpots) else None);
  }

  /** The rows carry the tenants' whole total exactly when every tenant left out has nothing that can be read. */
  lemma RowsCarryTheTotalExactly(sources: seq<Source>, decisions: Counts, reports: Reports)
    ensures TenantsOf(Reporting(sources, reports)) <= TenantsOf(sources)
    ensures PendingIn(Rows(Reporting(sources, reports), decisions)) == PendingOf(TenantsOf(sources), decisions) <==>
              forall t :: t in TenantsOf(sources) - TenantsOf(Reporting(sources, reports)) ==> Guarded(decisions(t), 0) == 0
  {
    var reporting := Reporting(sources, reports);
    CountedOncePerTenant(reporting, decisions);
    forall t | t in TenantsOf(reporting) ensures t in TenantsOf(sources) {
      var s :| s in reporting && s.tenantId == t;
      ReportingExactly(sources, reports, s);
    }
    SubsetTotal(TenantsOf(reporting), TenantsOf(sources), decisions);
  }

  lemma {:induction false} SubsetTotal(some: set<string>, all: set<string>, decisions: Counts)
    requires some <= all
    ensures PendingOf(some, decisions) <= PendingOf(all, decisions)
    ensures PendingOf(some, decisions) == PendingOf(all, decisions) <==>
              forall t :: t in all - some ==> Guarded(decisions(t), 0) == 0
    decreases |all - some|
  {
    if some != all {
      assert !(all <= some);
      var t :| t in all && t !in some;
      PendingOfOne(some + {t}, t, decisions);
      assert some + {t} - {t} == some;
      assert all - (some + {t}) == (all - some) - {t};
      SubsetTotal(some + {t}, all, decisions);
    }
  }
}
