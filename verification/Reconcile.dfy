/** Reconciling the provider's live pods with the local ownership trails. */
module Reconcile {
  import opened Common
  import opened Intents

  datatype LivePod = LivePod(id: string, name: string, desiredStatus: string, costPerHr: Option<real>)

  datatype Classification = ActiveOwner | AbandonedIntent | ReceiptedButAlive | ReceiptedUnverifiedAlive | UnknownPod

  datatype Row = Row(pod: LivePod, classification: Classification, owner: Option<string>, orphan: bool)

  /** An open intent whose pod is gone, and a create intent that never got a pod. */
  datatype Stale = Stale(requestId: string, podId: string, status: Status)
  datatype Unbound = Unbound(requestId: string, status: Status)

  datatype Report = Report(live: seq<Row>, orphans: seq<Row>, owned: seq<Row>, stale: seq<Stale>, unbound: seq<Unbound>)

  predicate HasPod(i: Intent) {
    i.podId.Some? && i.podId.value != ""
  }

  predicate IsUnbound(i: Intent) {
    i.status == Requested && !HasPod(i)
  }

  predicate BindsOpen(i: Intent) {
    i.status != Completed && HasPod(i)
  }

  /** Pod ids of open intents in the order they first appear; a later intent of the same pod replaces the
      value but keeps the place. */
  datatype Trails = Trails(order: seq<string>, byPod: map<string, Intent>)

  function AddTrail(t: Trails, i: Intent): Trails {
    if !BindsOpen(i) then t
    else Trails(if i.podId.value in t.byPod then t.order else t.order + [i.podId.value], t.byPod[i.podId.value := i])
  }

  function TrailsOf(intents: seq<Intent>): Trails {
    if intents == [] then Trails([], map[]) else AddTrail(TrailsOf(intents[..|intents| - 1]), intents[|intents| - 1])
  }

  function UnboundOf(intents: seq<Intent>): seq<Unbound> {
    if intents == [] then [] else
    var i := intents[|intents| - 1];
    var rest := UnboundOf(intents[..|intents| - 1]);
    if IsUnbound(i) then rest + [Unbound(i.requestId, i.status)] else rest
  }

  /** `receipts` maps a pod id to whether its spend receipt verified the teardown. */
  function ClassifyPod(pod: LivePod, byPod: map<string, Intent>, active: Option<string>,
                       receipts: map<string, bool>): Row {
    if active == Some(pod.id) then Row(pod, ActiveOwner, Some(pod.id), false)
    else if pod.id in byPod && (pod.id !in receipts || !receipts[pod.id]) then
      Row(pod, AbandonedIntent, Some(byPod[pod.id].requestId), true)
    else if pod.id in receipts && receipts[pod.id] then Row(pod, ReceiptedButAlive, Some(pod.id), true)
    else if pod.id in receipts then Row(pod, ReceiptedUnverifiedAlive, Some(pod.id), true)
    else Row(pod, UnknownPod, None, true)
  }

  function RowsOf(live: seq<LivePod>, byPod: map<string, Intent>, active: Option<string>,
                  receipts: map<string, bool>): seq<Row> {
    if live == [] then [] else
    var pod := live[|live| - 1];
    var rest := RowsOf(live[..|live| - 1], byPod, active, receipts);
    if pod.id == "" then rest else rest + [ClassifyPod(pod, byPod, active, receipts)]
  }

  function Select(rows: seq<Row>, orphan: bool): seq<Row> {
    if rows == [] then [] else
    var rest := Select(rows[..|rows| - 1], orphan);
    if rows[|rows| - 1].orphan == orphan then rest + [rows[|rows| - 1]] else rest
  }

  function LiveIds(live: seq<LivePod>): set<string> {
    set p | p in live && p.id != "" :: p.id
  }

  function StaleOf(order: seq<string>, byPod: map<string, Intent>, liveIds: set<string>): seq<Stale>
    requires forall p | p in order :: p in byPod
  {
    if order == [] then [] else
    var p := order[|order| - 1];
    var rest := StaleOf(order[..|order| - 1], byPod, liveIds);
    if p in liveIds then rest else rest + [Stale(byPod[p].requestId, p, byPod[p].status)]
  }

  predicate Distinct(s: seq<string>) {
    forall i, j | 0 <= i < j < |s| :: s[i] != s[j]
  }

  ghost predicate Consistent(t: Trails, intents: seq<Intent>) {
    && (forall p :: p in t.order <==> p in t.byPod)
    && Distinct(t.order)
    && (forall p | p in t.byPod :: t.byPod[p] in intents && BindsOpen(t.byPod[p]) && t.byPod[p].podId == Some(p))
    && (forall i | i in intents && BindsOpen(i) :: i.podId.value in t.byPod)
  }

  lemma AddKeepsConsistent(t: Trails, intents: seq<Intent>, i: Intent)
    requires Consistent(t, intents)
    ensures Consistent(AddTrail(t, i), intents + [i])
  {
    var t' := AddTrail(t, i);
    assert forall x | x in intents :: x in intents + [i];
    assert i in intents + [i];
    if BindsOpen(i) && i.podId.value !in t.byPod {
      assert forall k | 0 <= k < |t.order| :: t.order[k] in t.order;
      assert forall p :: p in t'.order <==> p in t.order || p == i.podId.value;
    }
  }

  lemma {:induction false} TrailsAreConsistent(intents: seq<Intent>)
    ensures Consistent(TrailsOf(intents), intents)
  {
    if intents != [] {
      var rest, last := intents[..|intents| - 1], intents[|intents| - 1];
      TrailsAreConsistent(rest);
      AddKeepsConsistent(TrailsOf(rest), rest, last);
      assert intents == rest + [last];
    }
  }

  function ReconcileSpec(live: seq<LivePod>, intents: seq<Intent>, active: Option<string>,
                         receipts: map<string, bool>): Report {
    TrailsAreConsistent(intents);
    var t := TrailsOf(intents);
    var rows := RowsOf(live, t.byPod, active, receipts);
    Report(rows, Select(rows, true), Select(rows, false), StaleOf(t.order, t.byPod, LiveIds(live)), UnboundOf(intents))
  }

  method CollectTrails(intents: seq<Intent>) returns (t: Trails, unbound: seq<Unbound>)
    ensures t == TrailsOf(intents) && unbound == UnboundOf(intents)
  {
    var order: seq<string>, byPod: map<string, Intent> := [], map[];
    unbound := [];
    for k := 0 to |intents|
      invariant Trails(order, byPod) == TrailsOf(intents[..k]) && unbound == UnboundOf(intents[..k])
    {
      var i := intents[k];
      assert intents[..k + 1][..k] == intents[..k];
      if i.status == Completed {
        continue;
      }
      if i.status == Requested && !HasPod(i) {
        unbound := unbound + [Unbound(i.requestId, i.status)];
        continue;
      }
      if HasPod(i) {
        if i.podId.value !in byPod {
          order := order + [i.podId.value];
        }
        byPod := byPod[i.podId.value := i];
      }
    }
    assert intents[..|intents|] == intents;
    t := Trails(order, byPod);
  }

  method ClassifyOne(pod: LivePod, byPod: map<string, Intent>, active: Option<string>, receipts: map<string, bool>)
    returns (row: Row)
    requires pod.id != ""
    ensures row == ClassifyPod(pod, byPod, Claim(active), receipts)
  {
    if active.Some? && active.value != "" && pod.id == active.value {
      return Row(pod, ActiveOwner, active, false);
    }
    var verified := pod.id in receipts && receipts[pod.id];
    if pod.id in byPod && !verified {
      return Row(pod, AbandonedIntent, Some(byPod[pod.id].requestId), true);
    }
    if verified {
      return Row(pod, ReceiptedButAlive, Some(pod.id), true);
    }
    if pod.id in receipts {
      return Row(pod, ReceiptedUnverifiedAlive, Some(pod.id), true);
    }
    return Row(pod, UnknownPod, None, true);
  }

  lemma RowsUnfold(live: seq<LivePod>, k: nat, byPod: map<string, Intent>, active: Option<string>,
                   receipts: map<string, bool>)
    requires k < |live|
    ensures RowsOf(live[..k + 1], byPod, active, receipts) ==
            if live[k].id == "" then RowsOf(live[..k], byPod, active, receipts)
            else RowsOf(live[..k], byPod, active, receipts) + [ClassifyPod(live[k], byPod, active, receipts)]
  {
    assert live[..k + 1][..k] == live[..k];
  }

  lemma IdsUnfold(live: seq<LivePod>, k: nat)
    requires k < |live|
    ensures LiveIds(live[..k + 1]) == LiveIds(live[..k]) + if live[k].id == "" then {} else {live[k].id}
  {
    assert live[..k + 1] == live[..k] + [live[k]];
  }

  lemma SelectSnoc(rows: seq<Row>, row: Row, orphan: bool)
    ensures Select(rows + [row], orphan) == if row.orphan == orphan then Select(rows, orphan) + [row]
            else Select(rows, orphan)
  {
    assert (rows + [row])[..|rows|] == rows;
  }

  method ClassifyRows(live: seq<LivePod>, byPod: map<string, Intent>, active: Option<string>,
                      receipts: map<string, bool>)
    returns (rows: seq<Row>, orphans: seq<Row>, owned: seq<Row>, liveIds: set<string>)
    ensures rows == RowsOf(live, byPod, Claim(active), receipts)
    ensures orphans == Select(rows, true) && owned == Select(rows, false)
    ensures liveIds == LiveIds(live)
  {
    rows, orphans, owned, liveIds := [], [], [], {};
    for k := 0 to |live|
      invariant rows == RowsOf(live[..k], byPod, Claim(active), receipts)
      invariant orphans == Select(rows, true) && owned == Select(rows, false)
      invariant liveIds == LiveIds(live[..k])
    {
      var pod := live[k];
      RowsUnfold(live, k, byPod, Claim(active), receipts);
      IdsUnfold(live, k);
      if pod.id == "" {
        continue;
      }
      liveIds := liveIds + {pod.id};
      var row := ClassifyOne(pod, byPod, active, receipts);
      SelectSnoc(rows, row, true);
      SelectSnoc(rows, row, false);
      if row.orphan {
        orphans := orphans + [row];
      } else {
        owned := owned + [row];
      }
      rows := rows + [row];
    }
    assert live[..|live|] == live;
  }

  method ListStale(t: Trails, liveIds: set<string>) returns (stale: seq<Stale>)
    requires forall p | p in t.order :: p in t.byPod
    ensures stale == StaleOf(t.order, t.byPod, liveIds)
  {
    stale := [];
    for k := 0 to |t.order|
      invariant stale == StaleOf(t.order[..k], t.byPod, liveIds)
    {
      var p := t.order[k];
      assert t.order[..k + 1][..k] == t.order[..k];
      if p !in liveIds {
        stale := stale + [Stale(t.byPod[p].requestId, p, t.byPod[p].status)];
      }
    }
    assert t.order[..|t.order|] == t.order;
  }

  /** An empty active id claims nothing. */
  function Claim(active: Option<string>): Option<string> {
    if active == Some("") then None else active
  }

  method ClassifyLivePods(live: seq<LivePod>, intents: seq<Intent>, active: Option<string>, receipts: map<string, bool>)
    returns (report: Report)
    ensures report == ReconcileSpec(live, intents, Claim(active), receipts)
  {
    var t, unbound := CollectTrails(intents);
    var rows, orphans, owned, liveIds := ClassifyRows(live, t.byPod, active, receipts);
    TrailsAreConsistent(intents);
    var stale := ListStale(t, liveIds);
    report := Report(rows, orphans, owned, stale, unbound);
  }

  // ---------------------------------------------------------------- what the report says

  lemma {:induction false} SelectMembers(rows: seq<Row>, orphan: bool)
    ensures forall r :: r in Select(rows, orphan) <==> r in rows && r.orphan == orphan
  {
    if rows != [] {
      var rest, last := rows[..|rows| - 1], rows[|rows| - 1];
      SelectMembers(rest, orphan);
      assert rows == rest + [last];
    }
  }

  /** Positions below `n`, in increasing order. */
  predicate Increasing(at: seq<nat>, n: nat) {
    && (forall i | 0 <= i < |at| :: at[i] < n)
    && (forall i, j | 0 <= i < j < |at| :: at[i] < at[j])
  }

  lemma OneMorePosition(at: seq<nat>, n: nat)
    requires Increasing(at, n)
    ensures Increasing(at + [n], n + 1) && Increasing(at, n + 1) && n !in at
    ensures forall i :: i in at + [n] <==> i in at || i == n
  {
  }

  /** `at` lists positions in increasing order, and `part` is what stands there. */
  predicate PicksInOrder(rows: seq<Row>, part: seq<Row>, at: seq<nat>) {
    |at| == |part| && Increasing(at, |rows|) && forall i | 0 <= i < |at| :: rows[at[i]] == part[i]
  }

  lemma {:induction false} SelectPositions(rows: seq<Row>) returns (orphans: seq<nat>, owned: seq<nat>)
    ensures PicksInOrder(rows, Select(rows, true), orphans) && PicksInOrder(rows, Select(rows, false), owned)
    ensures forall i: nat | i < |rows| :: (i in orphans <==> rows[i].orphan) && (i in owned <==> !rows[i].orphan)
  {
    orphans, owned := [], [];
    if rows != [] {
      var rest, n := rows[..|rows| - 1], |rows| - 1;
      orphans, owned := SelectPositions(rest);
      TakeSnoc(rows, |rows|);
      assert rows[..|rows|] == rows;
      if rows[n].orphan {
        PicksOneMore(rest, Select(rest, true), orphans, rows[n]);
        PicksSame(rest, Select(rest, false), owned, rows[n]);
        orphans := orphans + [n];
      } else {
        PicksOneMore(rest, Select(rest, false), owned, rows[n]);
        PicksSame(rest, Select(rest, true), orphans, rows[n]);
        owned := owned + [n];
      }
    }
  }

  lemma {:induction false} SelectKeepsAll(rows: seq<Row>)
    ensures multiset(rows) == multiset(Select(rows, true)) + multiset(Select(rows, false))
  {
    if rows != [] {
      var rest, last := rows[..|rows| - 1], rows[|rows| - 1];
      SelectKeepsAll(rest);
      assert rows == rest + [last];
    }
  }

  /** Owned and orphan rows split the live rows between them, position by position, each in listing order. */
  lemma SelectSplits(rows: seq<Row>) returns (orphans: seq<nat>, owned: seq<nat>)
    ensures PicksInOrder(rows, Select(rows, true), orphans) && PicksInOrder(rows, Select(rows, false), owned)
    ensures forall i: nat | i < |rows| :: (i in orphans <==> rows[i].orphan) && (i in owned <==> !rows[i].orphan)
    ensures multiset(rows) == multiset(Select(rows, true)) + multiset(Select(rows, false))
  {
    orphans, owned := SelectPositions(rows);
    SelectKeepsAll(rows);
  }

  lemma PicksOneMore(rows: seq<Row>, part: seq<Row>, at: seq<nat>, row: Row)
    requires PicksInOrder(rows, part, at)
    ensures PicksInOrder(rows + [row], part + [row], at + [|rows|])
    ensures forall i: nat | i <= |rows| :: i in at + [|rows|] <==> i in at || i == |rows|
    ensures |rows| !in at
  {
  }

  lemma PicksSame(rows: seq<Row>, part: seq<Row>, at: seq<nat>, row: Row)
    requires PicksInOrder(rows, part, at)
    ensures PicksInOrder(rows + [row], part, at) && |rows| !in at
  {
  }

  /** Each listed pod with an id gets exactly the row its trails call for. */
  lemma {:induction false} RowsMembers(live: seq<LivePod>, byPod: map<string, Intent>, active: Option<string>,
                                       receipts: map<string, bool>)
    ensures var rows := RowsOf(live, byPod, active, receipts);
            && (forall p | p in live && p.id != "" :: ClassifyPod(p, byPod, active, receipts) in rows)
            && (forall r | r in rows ::
                  r.pod in live && r.pod.id != "" && r == ClassifyPod(r.pod, byPod, active, receipts))
  {
    if live != [] {
      RowsMembers(live[..|live| - 1], byPod, active, receipts);
      assert live == live[..|live| - 1] + [live[|live| - 1]];
    }
  }

  /** The rows are those of the listed pods with an id, in listing order, each once. */
  lemma {:induction false} RowsInOrder(live: seq<LivePod>, byPod: map<string, Intent>, active: Option<string>,
                                       receipts: map<string, bool>) returns (at: seq<nat>)
    ensures Increasing(at, |live|) && forall i: nat | i < |live| :: i in at <==> live[i].id != ""
    ensures var rows := RowsOf(live, byPod, active, receipts);
            |rows| == |at| && forall i | 0 <= i < |at| :: rows[i].pod == live[at[i]]
  {
    at := [];
    if live != [] {
      var n := |live| - 1;
      at := RowsInOrder(live[..n], byPod, active, receipts);
      OneMorePosition(at, n);
      if live[n].id != "" { at := at + [n]; }
    }
  }

  lemma RowOfPod(live: seq<LivePod>, byPod: map<string, Intent>, active: Option<string>, receipts: map<string, bool>,
                 podId: string)
    ensures var rows := RowsOf(live, byPod, active, receipts);
            && ((exists r | r in rows :: r.pod.id == podId) <==> podId in LiveIds(live))
            && ((exists r | r in Select(rows, true) :: r.pod.id == podId)
                <==> podId in LiveIds(live) && active != Some(podId))
  {
    var rows := RowsOf(live, byPod, active, receipts);
    RowsMembers(live, byPod, active, receipts);
    SelectMembers(rows, true);
    if podId in LiveIds(live) {
      var p :| p in live && p.id != "" && p.id == podId;
      var row := ClassifyPod(p, byPod, active, receipts);
      assert row in rows && row.pod.id == podId && (row.orphan <==> active != Some(podId));
    }
  }

  predicate Binds(i: Intent, podId: string) {
    BindsOpen(i) && i.podId.value == podId
  }

  predicate FirstBinds(intents: seq<Intent>, podId: string, k: nat) {
    k < |intents| && Binds(intents[k], podId) && forall j | 0 <= j < k :: !Binds(intents[j], podId)
  }

  predicate LastBinds(intents: seq<Intent>, podId: string, k: nat) {
    k < |intents| && Binds(intents[k], podId) && forall j | k < j < |intents| :: !Binds(intents[j], podId)
  }

  /** A pod's trail is the last open intent that binds it. */
  lemma {:induction false} TrailIsLast(intents: seq<Intent>, podId: string) returns (k: nat)
    requires podId in TrailsOf(intents).byPod
    ensures LastBinds(intents, podId, k) && TrailsOf(intents).byPod[podId] == intents[k]
  {
    var n := |intents| - 1;
    if Binds(intents[n], podId) {
      k := n;
    } else {
      k := TrailIsLast(intents[..n], podId);
    }
  }

  /** Trails come in the order in which their pods were first bound. */
  lemma {:induction false} TrailsInOrder(intents: seq<Intent>) returns (at: seq<nat>)
    ensures var order := TrailsOf(intents).order;
            && |at| == |order| && Increasing(at, |intents|)
            && forall i | 0 <= i < |at| :: FirstBinds(intents, order[i], at[i])
  {
    at := [];
    if intents != [] {
      var n := |intents| - 1;
      var rest := intents[..n];
      at := TrailsInOrder(rest);
      TrailsAreConsistent(rest);
      OneMorePosition(at, n);
      forall i | 0 <= i < |at| ensures FirstBinds(intents, TrailsOf(rest).order[i], at[i]) {
        assert FirstBinds(rest, TrailsOf(rest).order[i], at[i]);
      }
      var last := intents[n];
      if BindsOpen(last) && last.podId.value !in TrailsOf(rest).byPod {
        forall j | 0 <= j < n ensures !Binds(intents[j], last.podId.value) {
          assert rest[j] in rest;
        }
        at := at + [n];
      }
    }
  }

  /** What a stale entry says of an intent. */
  function StaleEntry(i: Intent): Stale
    requires i.podId.Some?
  {
    Stale(i.requestId, i.podId.value, i.status)
  }

  lemma {:induction false} StaleMembers(order: seq<string>, byPod: map<string, Intent>, liveIds: set<string>)
    returns (at: seq<nat>)
    requires forall p | p in order :: p in byPod && byPod[p].podId == Some(p)
    ensures var stale := StaleOf(order, byPod, liveIds);
            && |at| == |stale| && Increasing(at, |order|)
            && (forall i: nat | i < |order| :: i in at <==> order[i] !in liveIds)
            && (forall i | 0 <= i < |at| :: stale[i] == StaleEntry(byPod[order[at[i]]]))
  {
    at := [];
    if order != [] {
      var n := |order| - 1;
      at := StaleMembers(order[..n], byPod, liveIds);
      OneMorePosition(at, n);
      if order[n] !in liveIds { at := at + [n]; }
    }
  }

  /** The entry repeats the last open intent that binds its pod. */
  predicate StaleOfLast(intents: seq<Intent>, e: Stale) {
    exists k: nat | k < |intents| :: LastBinds(intents, e.podId, k) && e == StaleEntry(intents[k])
  }

  lemma TrailIsStaleOfLast(intents: seq<Intent>, podId: string)
    requires podId in TrailsOf(intents).byPod
    ensures var i := TrailsOf(intents).byPod[podId];
            i.podId == Some(podId) && StaleOfLast(intents, StaleEntry(i))
  {
    var k := TrailIsLast(intents, podId);
  }

  lemma OrderedTrails(intents: seq<Intent>)
    ensures var t := TrailsOf(intents); forall p | p in t.order :: p in t.byPod && t.byPod[p].podId == Some(p)
  {
    TrailsAreConsistent(intents);
  }

  /** Every stale entry repeats the request id, pod and status of the last open intent that binds its pod, and
      the pod is not listed; the entries come in the order in which their pods were first bound. */
  lemma StaleMeaning(live: seq<LivePod>, intents: seq<Intent>, active: Option<string>, receipts: map<string, bool>)
    returns (first: seq<nat>)
    ensures var stale := ReconcileSpec(live, intents, active, receipts).stale;
            && |first| == |stale| && Increasing(first, |intents|)
            && forall i | 0 <= i < |stale| ::
                 && FirstBinds(intents, stale[i].podId, first[i]) && StaleOfLast(intents, stale[i])
                 && stale[i].podId !in LiveIds(live)
  {
    var t := TrailsOf(intents);
    var seen := TrailsInOrder(intents);
    OrderedTrails(intents);
    var at := StaleMembers(t.order, t.byPod, LiveIds(live));
    first := seq(|at|, i requires 0 <= i < |at| => seen[at[i]]);
    forall i | 0 <= i < |at|
      ensures var e := StaleOf(t.order, t.byPod, LiveIds(live))[i];
              e.podId == t.order[at[i]] && e.podId !in LiveIds(live) && StaleOfLast(intents, e)
    {
      assert at[i] in at;
      EntryOfTrail(intents, t.order[at[i]], StaleOf(t.order, t.byPod, LiveIds(live))[i]);
    }
  }

  lemma EntryOfTrail(intents: seq<Intent>, podId: string, e: Stale)
    requires podId in TrailsOf(intents).byPod && TrailsOf(intents).byPod[podId].podId == Some(podId)
    requires e == StaleEntry(TrailsOf(intents).byPod[podId])
    ensures e.podId == podId && StaleOfLast(intents, e)
  {
    TrailIsStaleOfLast(intents, podId);
  }

  /** Some open intent binds this pod. */
  predicate BoundOpen(intents: seq<Intent>, podId: string) {
    exists i | i in intents :: Binds(i, podId)
  }

  /** What a row says about its pod, in terms of the lists reconcile was given: an orphan exactly when not
      claimed, and then abandoned exactly when an open intent binds it and no receipt verified its teardown,
      receipted exactly when one did, unverified when a receipt is its only trail, and unknown without any. */
  lemma RowMeaning(live: seq<LivePod>, intents: seq<Intent>, active: Option<string>, receipts: map<string, bool>,
                   row: Row)
    requires row in ReconcileSpec(live, intents, active, receipts).live
    ensures var id := row.pod.id;
            var claimed, bound, receipted := active == Some(id), BoundOpen(intents, id), id in receipts;
            var verified := receipted && receipts[id];
            && row.pod in live && id != "" && (row.orphan <==> !claimed)
            && (row.classification == ActiveOwner <==> claimed)
            && (row.classification == AbandonedIntent <==> !claimed && bound && !verified)
            && (row.classification == ReceiptedButAlive <==> !claimed && verified)
            && (row.classification == ReceiptedUnverifiedAlive <==> !claimed && !bound && receipted && !verified)
            && (row.classification == UnknownPod <==> !claimed && !bound && !receipted)
    ensures row.classification == AbandonedIntent ==>
              exists k: nat :: LastBinds(intents, row.pod.id, k) && row.owner == Some(intents[k].requestId)
    ensures row.classification == UnknownPod <==> row.owner == None
    ensures row.classification != UnknownPod && row.classification != AbandonedIntent ==> row.owner == Some(row.pod.id)
  {
    var byPod := TrailsOf(intents).byPod;
    RowsMembers(live, byPod, active, receipts);
    TrailOfPod(intents, row.pod.id);
    if row.classification == AbandonedIntent {
      var k := TrailIsLast(intents, row.pod.id);
    }
  }

  lemma TrailOfPod(intents: seq<Intent>, podId: string)
    ensures var byPod := TrailsOf(intents).byPod;
            && (podId in byPod <==> BoundOpen(intents, podId))
            && (podId in byPod ==>
                 byPod[podId] in intents && BindsOpen(byPod[podId]) && byPod[podId].podId.value == podId)
  {
    TrailsAreConsistent(intents);
  }

  /** The reconcile command fails exactly when a listed pod with an id is not the active one, whatever
      intents and receipts say. */
  lemma FailsIffUnclaimed(live: seq<LivePod>, intents: seq<Intent>, active: Option<string>, receipts: map<string, bool>)
    ensures ReconcileSpec(live, intents, active, receipts).orphans != [] <==>
            exists p | p in live :: p.id != "" && active != Some(p.id)
  {
    var byPod := TrailsOf(intents).byPod;
    var rows := RowsOf(live, byPod, active, receipts);
    RowsMembers(live, byPod, active, receipts);
    SelectMembers(rows, true);
    if Select(rows, true) != [] {
      assert Select(rows, true)[0] in rows;
    }
    if exists p | p in live :: p.id != "" && active != Some(p.id) {
      var p :| p in live && p.id != "" && active != Some(p.id);
      assert ClassifyPod(p, byPod, active, receipts) in Select(rows, true);
    }
  }

  /** The unbound list names exactly the create intents that never got a pod. */
  lemma {:induction false} UnboundMembers(intents: seq<Intent>)
    ensures forall i | i in intents && IsUnbound(i) :: Unbound(i.requestId, i.status) in UnboundOf(intents)
    ensures forall u | u in UnboundOf(intents) :: exists i | i in intents ::
                                                    IsUnbound(i) && u == Unbound(i.requestId, i.status)
  {
    if intents != [] {
      var rest, last := intents[..|intents| - 1], intents[|intents| - 1];
      UnboundMembers(rest);
      assert intents == rest + [last];
    }
  }

  /** In listing order, each once. */
  lemma {:induction false} UnboundInOrder(intents: seq<Intent>) returns (at: seq<nat>)
    ensures var unbound := UnboundOf(intents);
            && |at| == |unbound| && Increasing(at, |intents|)
            && (forall i: nat | i < |intents| :: i in at <==> IsUnbound(intents[i]))
            && (forall i | 0 <= i < |at| :: unbound[i] == Unbound(intents[at[i]].requestId, Requested))
  {
    at := [];
    if intents != [] {
      var n := |intents| - 1;
      at := UnboundInOrder(intents[..n]);
      OneMorePosition(at, n);
      if IsUnbound(intents[n]) { at := at + [n]; }
    }
  }

  function CountStale(stale: seq<Stale>, podId: string): nat {
    if stale == [] then 0 else CountStale(stale[..|stale| - 1], podId) + Hit(stale[|stale| - 1], podId)
  }

  function Hit(s: Stale, podId: string): nat {
    if s.podId == podId then 1 else 0
  }

  lemma CountStaleSnoc(stale: seq<Stale>, s: Stale, podId: string)
    ensures CountStale(stale + [s], podId) == CountStale(stale, podId) + Hit(s, podId)
  {
    assert (stale + [s])[..|stale|] == stale;
  }

  lemma LastApart(order: seq<string>, p: string)
    requires order != [] && Distinct(order)
    ensures var rest, last := order[..|order| - 1], order[|order| - 1];
            Distinct(rest) && (p in order <==> p in rest || p == last) && !(p in rest && p == last)
  {
    assert order == order[..|order| - 1] + [order[|order| - 1]];
  }

  lemma {:induction false} StaleCount(order: seq<string>, byPod: map<string, Intent>, liveIds: set<string>,
                                      podId: string)
    requires (forall p | p in order :: p in byPod) && Distinct(order)
    ensures CountStale(StaleOf(order, byPod, liveIds), podId) == if podId in order && podId !in liveIds then 1 else 0
  {
    if order != [] {
      var rest, last := order[..|order| - 1], order[|order| - 1];
      LastApart(order, podId);
      StaleCount(rest, byPod, liveIds, podId);
      CountStaleSnoc(StaleOf(rest, byPod, liveIds), Stale(byPod[last].requestId, last, byPod[last].status), podId);
    }
  }

  /** A pod bound by an open intent is live in the report or listed stale exactly once, never both;
      no other pod is listed stale. */
  lemma OpenIntentLiveOrStale(live: seq<LivePod>, intents: seq<Intent>, active: Option<string>,
                              receipts: map<string, bool>, podId: string)
    ensures var r := ReconcileSpec(live, intents, active, receipts);
            var bound := exists i | i in intents :: BindsOpen(i) && i.podId.value == podId;
            var isLive := exists row | row in r.live :: row.pod.id == podId;
            CountStale(r.stale, podId) == if bound && !isLive then 1 else 0
  {
    var t := TrailsOf(intents);
    TrailsAreConsistent(intents);
    RowsMembers(live, t.byPod, active, receipts);
    StaleCount(t.order, t.byPod, LiveIds(live), podId);
    var rows := RowsOf(live, t.byPod, active, receipts);
    if podId in LiveIds(live) {
      var p :| p in live && p.id == podId && p.id != "";
      assert ClassifyPod(p, t.byPod, active, receipts).pod.id == podId;
    }
  }
}
