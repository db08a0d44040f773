/** The startup sync (controllers/dashboard_controller.go, syncDashboards). */
module Sync {
  import opened Resources
  import opened Cluster

  const SYNC_BATCH_SIZE: nat := 100

  /** The entries whose dashboard resource is gone. */
  function Stale(list: seq<string>, crs: set<Key>): seq<string> {
    if list == [] then []
    else if KeyOf(list[0]) in crs then Stale(list[1..], crs)
    else [list[0]] + Stale(list[1..], crs)
  }

  /** The entries that still have a dashboard resource, in order. */
  function Kept(list: seq<string>, crs: set<Key>): seq<string> {
    if list == [] then []
    else if KeyOf(list[0]) in crs then [list[0]] + Kept(list[1..], crs)
    else Kept(list[1..], crs)
  }

  /** How a stretch of the cycle ends: to its end, at the batch limit, or with an error. */
  datatype Exit = Done | BatchFull | Failed

  /** A delete request sent to the Grafana of an instance. */
  datatype Request = Request(instance: nat, uid: string)

  datatype Batch = Batch(g: Grafana, mem: seq<string>, synced: nat, calls: seq<Request>, exit: Exit)

  /** Delete the stale entries of one instance, from the n-th on. `mem` is the status list of
      the in-memory object; the saved one stays in `g`. A 404 counts as success. */
  function DeleteEntries(b: Batch, stale: seq<string>, n: nat, i: nat, f: Faults): Batch
    requires n <= |stale|
    decreases |stale| - n
  {
    if n == |stale| then b.(exit := Done)
    else if b.synced >= SYNC_BATCH_SIZE then b.(exit := BatchFull)
    else
      var uid := UidOf(stale[n]);
      var sent := b.(calls := b.calls + [Request(i, uid)]);
      match f(i, DeleteEntry(n))
      case Lost => sent.(exit := Failed)
      case Applied => sent.(g := DropDash(b.g, uid), exit := Failed)
      case NoFault =>
        DeleteEntries(sent.(g := DropDash(b.g, uid), mem := Removed(b.mem, KeyOf(stale[n])),
                            synced := b.synced + 1), stale, n + 1, i, f)
  }

  datatype Cycle = Cycle(gs: seq<Grafana>, synced: nat, calls: seq<Request>, exit: Exit)

  /** One instance: all its stale entries, then one save. */
  function SyncInstance(c: Cycle, crs: set<Key>, i: nat, f: Faults): (r: Cycle)
    requires i < |c.gs|
    ensures |r.gs| == |c.gs|
  {
    var g := c.gs[i];
    var stale := Stale(g.status, crs);
    if stale == [] then c.(exit := Done)
    else if f(i, NewClient) != NoFault then c.(exit := Failed)
    else
      var b := DeleteEntries(Batch(g, g.status, c.synced, c.calls, Done), stale, 0, i, f);
      var saved := b.g.(status := b.mem);
      if b.exit != Done then Cycle(c.gs[i := b.g], b.synced, b.calls, b.exit)
      else match f(i, SaveInstance)
        case Lost => Cycle(c.gs[i := b.g], b.synced, b.calls, Failed)
        case Applied => Cycle(c.gs[i := saved], b.synced, b.calls, Failed)
        case NoFault => Cycle(c.gs[i := saved], b.synced, b.calls, Done)
  }

  /** The instances in the order Go's map iteration hands them out; ends at the first that
      does not run to its end. */
  function SyncFrom(c: Cycle, crs: set<Key>, order: seq<nat>, f: Faults): (r: Cycle)
    requires forall a | 0 <= a < |order| :: order[a] < |c.gs|
    ensures |r.gs| == |c.gs|
    decreases |order|
  {
    if order == [] then c.(exit := Done)
    else
      var d := SyncInstance(c, crs, order[0], f);
      if d.exit != Done then d else SyncFrom(d, crs, order[1..], f)
  }

  /** Each of 0, ..., n - 1 once. */
  ghost predicate VisitsEach(order: seq<nat>, n: nat) {
    && (forall a | 0 <= a < |order| :: order[a] < n)
    && (forall i: nat | i < n :: i in order)
    && (forall a, b | 0 <= a < b < |order| :: order[a] != order[b])
  }

  /** One call of syncDashboards. */
  function SyncCycle(gs: seq<Grafana>, crs: set<Key>, order: seq<nat>, f: Faults): Cycle
    requires forall a | 0 <= a < |order| :: order[a] < |gs|
  {
    var start := Cycle(gs, 0, [], Done);
    if f(0, ListInstances) != NoFault then start.(exit := Failed)
    else if gs == [] then start
    else if f(0, ListResources) != NoFault then start.(exit := Failed)
    else SyncFrom(start, crs, order, f)
  }

  // Filtering

  lemma {:induction false} StaleMembers(list: seq<string>, crs: set<Key>)
    ensures forall e :: e in Stale(list, crs) <==> e in list && KeyOf(e) !in crs
  {
    if list != [] {
      StaleMembers(list[1..], crs);
      assert forall e :: e in list <==> e == list[0] || e in list[1..];
    }
  }

  lemma {:induction false} KeptMembers(list: seq<string>, crs: set<Key>)
    ensures forall e :: e in Kept(list, crs) <==> e in list && KeyOf(e) in crs
  {
    if list != [] {
      KeptMembers(list[1..], crs);
      assert forall e :: e in list <==> e == list[0] || e in list[1..];
    }
  }

  lemma {:induction false} KeptIgnoresRemoval(list: seq<string>, crs: set<Key>, key: Key)
    requires key !in crs
    ensures Kept(Removed(list, key), crs) == Kept(list, crs)
  {
    if list != [] { KeptIgnoresRemoval(list[1..], crs, key); }
  }

  lemma {:induction false} KeptAll(list: seq<string>, crs: set<Key>)
    requires forall e | e in list :: KeyOf(e) in crs
    ensures Kept(list, crs) == list
  {
    if list != [] { KeptAll(list[1..], crs); }
  }

  /** Nothing is stale in a kept list. */
  lemma {:induction false} KeptIsClean(list: seq<string>, crs: set<Key>)
    ensures Stale(Kept(list, crs), crs) == []
    ensures Kept(Kept(list, crs), crs) == Kept(list, crs)
  {
    if list != [] { KeptIsClean(list[1..], crs); }
  }

  lemma NothingStale(list: seq<string>, crs: set<Key>)
    requires Stale(list, crs) == []
    ensures Kept(list, crs) == list
  {
    StaleMembers(list, crs);
    KeptAll(list, crs);
  }

  /** What every outcome of deleting entries has in common. */
  ghost predicate BatchShape(b: Batch, r: Batch) {
    && r.g.(dashes := b.g.dashes) == b.g
    && (forall u | u in r.g.dashes :: u in b.g.dashes && r.g.dashes[u] == b.g.dashes[u])
    && b.calls <= r.calls
    && |r.calls| - |b.calls| <= SYNC_BATCH_SIZE - b.synced
  }

  /** The batch after the n-th entry has been deleted. */
  function Sent(b: Batch, entry: string, i: nat): Batch {
    b.(calls := b.calls + [Request(i, UidOf(entry))], g := DropDash(b.g, UidOf(entry)),
       mem := Removed(b.mem, KeyOf(entry)), synced := b.synced + 1)
  }

  lemma {:induction false} DeleteEntriesShape(b: Batch, stale: seq<string>, n: nat, i: nat, f: Faults)
    requires n <= |stale| && b.synced <= SYNC_BATCH_SIZE
    ensures var r := DeleteEntries(b, stale, n, i, f);
            BatchShape(b, r) && b.synced <= r.synced <= SYNC_BATCH_SIZE
            && |r.calls| - |b.calls| <= r.synced - b.synced + (if r.exit == Failed then 1 else 0)
    decreases |stale| - n
  {
    if n < |stale| && b.synced < SYNC_BATCH_SIZE && f(i, DeleteEntry(n)) == NoFault {
      DeleteEntriesShape(Sent(b, stale[n], i), stale, n + 1, i, f);
    }
  }

  ghost predicate ForEntry(q: Request, stale: seq<string>, i: nat) {
    q.instance == i && exists e :: e in stale && UidOf(e) == q.uid
  }

  /** Every new request is for a stale entry. */
  lemma {:induction false} DeleteEntriesRequests(b: Batch, stale: seq<string>, n: nat, i: nat, f: Faults)
    requires n <= |stale|
    ensures forall q | q in DeleteEntries(b, stale, n, i, f).calls :: q in b.calls || ForEntry(q, stale, i)
    decreases |stale| - n
  {
    if n < |stale| && b.synced < SYNC_BATCH_SIZE {
      assert stale[n] in stale && ForEntry(Request(i, UidOf(stale[n])), stale, i);
      if f(i, DeleteEntry(n)) == NoFault {
        DeleteEntriesRequests(Sent(b, stale[n], i), stale, n + 1, i, f);
      }
    }
  }

  /** The entries to be removed from `mem` are among the stale ones from the n-th on. */
  ghost predicate AllAhead(mem: seq<string>, stale: seq<string>, n: nat, crs: set<Key>) {
    forall e | e in mem && KeyOf(e) !in crs :: Ahead(e, stale, n)
  }

  ghost predicate Ahead(e: string, stale: seq<string>, n: nat) {
    exists m :: n <= m < |stale| && KeyOf(stale[m]) == KeyOf(e)
  }

  lemma StaleAhead(mem: seq<string>, stale: seq<string>, n: nat, crs: set<Key>)
    requires n < |stale| && AllAhead(mem, stale, n, crs)
    ensures AllAhead(Removed(mem, KeyOf(stale[n])), stale, n + 1, crs)
  {
    RemovedMembers(mem, KeyOf(stale[n]));
    forall e | e in Removed(mem, KeyOf(stale[n])) && KeyOf(e) !in crs ensures Ahead(e, stale, n + 1) {
      assert Ahead(e, stale, n);
    }
  }

  lemma NoneAhead(mem: seq<string>, stale: seq<string>, crs: set<Key>)
    requires AllAhead(mem, stale, |stale|, crs)
    ensures Kept(mem, crs) == mem
  {
    assert forall e :: !Ahead(e, stale, |stale|);
    KeptAll(mem, crs);
  }

  /** Folding Remove over the stale entries filters the list. */
  lemma {:induction false} DeleteEntriesFilters(b: Batch, stale: seq<string>, n: nat, i: nat, f: Faults,
                                                crs: set<Key>)
    requires n <= |stale| && DeleteEntries(b, stale, n, i, f).exit == Done
    requires forall e | e in stale :: KeyOf(e) !in crs
    requires AllAhead(b.mem, stale, n, crs)
    ensures DeleteEntries(b, stale, n, i, f).mem == Kept(b.mem, crs)
    ensures DeleteEntries(b, stale, n, i, f).synced == b.synced + |stale| - n
    decreases |stale| - n
  {
    if n == |stale| {
      NoneAhead(b.mem, stale, crs);
    } else {
      var key := KeyOf(stale[n]);
      assert stale[n] in stale;
      KeptIgnoresRemoval(b.mem, crs, key);
      StaleAhead(b.mem, stale, n, crs);
      DeleteEntriesFilters(Sent(b, stale[n], i), stale, n + 1, i, f, crs);
    }
  }

  /** Without faults the batch limit alone decides how far it gets. */
  lemma {:induction false} DeleteEntriesWithoutFaults(b: Batch, stale: seq<string>, n: nat, i: nat)
    requires n <= |stale| && b.synced <= SYNC_BATCH_SIZE
    ensures DeleteEntries(b, stale, n, i, NoFaults()).exit
         == if b.synced + |stale| - n <= SYNC_BATCH_SIZE then Done else BatchFull
    decreases |stale| - n
  {
    if n < |stale| && b.synced < SYNC_BATCH_SIZE {
      DeleteEntriesWithoutFaults(Sent(b, stale[n], i), stale, n + 1, i);
    }
  }

  // One instance

  /** An instance after a cycle: status as it was or filtered, and nothing new on its server. */
  ghost predicate InstanceShape(g: Grafana, h: Grafana, crs: set<Key>) {
    && h.(dashes := g.dashes, status := g.status) == g
    && (h.status == g.status || h.status == Kept(g.status, crs))
    && (forall u | u in h.dashes :: u in g.dashes && h.dashes[u] == g.dashes[u])
  }

  /** A request names the uid of an entry whose resource is gone. */
  ghost predicate Justified(r: Request, gs: seq<Grafana>, crs: set<Key>) {
    r.instance < |gs| && exists e :: e in gs[r.instance].status && KeyOf(e) !in crs && UidOf(e) == r.uid
  }

  /** If all stale entries are deleted, the in-memory list is the filtered one. */
  lemma AllEntriesFilter(b: Batch, crs: set<Key>, i: nat, f: Faults)
    requires b.mem == b.g.status
    ensures var r := DeleteEntries(b, Stale(b.mem, crs), 0, i, f);
            r.exit == Done ==> r.mem == Kept(b.mem, crs) && r.synced == b.synced + |Stale(b.mem, crs)|
  {
    var stale := Stale(b.mem, crs);
    StaleMembers(b.mem, crs);
    if DeleteEntries(b, stale, 0, i, f).exit == Done {
      forall e | e in b.mem && KeyOf(e) !in crs ensures Ahead(e, stale, 0) {
        assert e in stale;
      }
      DeleteEntriesFilters(b, stale, 0, i, f, crs);
    }
  }

  /** Every new request for an instance is for one of its stale entries. */
  lemma InstanceRequestsJustified(c: Cycle, crs: set<Key>, i: nat, f: Faults)
    requires i < |c.gs|
    ensures forall q | q in SyncInstance(c, crs, i, f).calls :: q in c.calls || Justified(q, c.gs, crs)
  {
    var g := c.gs[i];
    var stale := Stale(g.status, crs);
    StaleMembers(g.status, crs);
    DeleteEntriesRequests(Batch(g, g.status, c.synced, c.calls, Done), stale, 0, i, f);
    assert forall q | ForEntry(q, stale, i) :: Justified(q, c.gs, crs);
  }

  lemma SyncInstanceShape(c: Cycle, crs: set<Key>, i: nat, f: Faults)
    requires i < |c.gs| && |c.calls| <= c.synced <= SYNC_BATCH_SIZE
    ensures var d := SyncInstance(c, crs, i, f);
            && |d.gs| == |c.gs| && (forall j | 0 <= j < |c.gs| && j != i :: d.gs[j] == c.gs[j])
            && InstanceShape(c.gs[i], d.gs[i], crs)
            && (d.exit == Done ==> d.gs[i].status == Kept(c.gs[i].status, crs) && |d.calls| <= d.synced)
            && (d.exit == BatchFull ==> d.gs[i].status == c.gs[i].status)
            && |d.calls| <= SYNC_BATCH_SIZE && d.synced <= SYNC_BATCH_SIZE && c.calls <= d.calls
  {
    var g := c.gs[i];
    var stale := Stale(g.status, crs);
    if stale == [] {
      NothingStale(g.status, crs);
    } else if f(i, NewClient) == NoFault {
      var b := Batch(g, g.status, c.synced, c.calls, Done);
      DeleteEntriesShape(b, stale, 0, i, f);
      AllEntriesFilter(b, crs, i, f);
    }
  }

  // A whole cycle

  lemma {:induction false} SyncFromShape(c: Cycle, crs: set<Key>, order: seq<nat>, f: Faults)
    requires forall a | 0 <= a < |order| :: order[a] < |c.gs|
    requires |c.calls| <= c.synced <= SYNC_BATCH_SIZE
    ensures var r := SyncFrom(c, crs, order, f);
            && (forall j | 0 <= j < |c.gs| :: InstanceShape(c.gs[j], r.gs[j], crs))
            && (forall j | 0 <= j < |c.gs| && j !in order :: r.gs[j] == c.gs[j])
            && (r.exit == Done ==> forall j: nat | j < |c.gs| && j in order ::
                                     r.gs[j].status == Kept(c.gs[j].status, crs))
            && |r.calls| <= SYNC_BATCH_SIZE && c.calls <= r.calls
    decreases |order|
  {
    if order != [] {
      var i := order[0];
      var d := SyncInstance(c, crs, i, f);
      SyncInstanceShape(c, crs, i, f);
      forall j | 0 <= j < |c.gs| ensures Kept(Kept(c.gs[j].status, crs), crs) == Kept(c.gs[j].status, crs) {
        KeptIsClean(c.gs[j].status, crs);
      }
      assert order == [i] + order[1..];
      if d.exit == Done {
        SyncFromShape(d, crs, order[1..], f);
      }
    }
  }

  lemma {:induction false} SyncFromJustified(c: Cycle, crs: set<Key>, order: seq<nat>, f: Faults, gs: seq<Grafana>)
    requires forall a | 0 <= a < |order| :: order[a] < |c.gs|
    requires |c.calls| <= c.synced <= SYNC_BATCH_SIZE
    requires |gs| == |c.gs| && forall j | 0 <= j < |gs| :: c.gs[j].status == gs[j].status || Stale(c.gs[j].status, crs) == []
    requires forall r | r in c.calls :: Justified(r, gs, crs)
    ensures forall r | r in SyncFrom(c, crs, order, f).calls :: Justified(r, gs, crs)
    decreases |order|
  {
    if order != [] {
      var i := order[0];
      var d := SyncInstance(c, crs, i, f);
      SyncInstanceShape(c, crs, i, f);
      InstanceRequestsJustified(c, crs, i, f);
      KeptIsClean(c.gs[i].status, crs);
      StaleMembers(c.gs[i].status, crs);
      forall r | r in d.calls ensures Justified(r, gs, crs) {
        if r !in c.calls {
          JustifiedAtSource(r, c, crs, i, f, gs);
        }
      }
      if d.exit == Done {
        SyncFromJustified(d, crs, order[1..], f, gs);
      }
    }
  }

  /** Requests made for an instance go back to the entries it had when the cycle began. */
  lemma JustifiedAtSource(r: Request, c: Cycle, crs: set<Key>, i: nat, f: Faults, gs: seq<Grafana>)
    requires i < |c.gs| == |gs|
    requires Justified(r, c.gs, crs)
    requires forall j | 0 <= j < |gs| :: c.gs[j].status == gs[j].status || Stale(c.gs[j].status, crs) == []
    ensures Justified(r, gs, crs)
  {
    StaleMembers(c.gs[r.instance].status, crs);
    assert c.gs[r.instance].status == gs[r.instance].status;
  }

  /** MAIN: every cycle, whatever fails in it, is safe and exact: at most SYNC_BATCH_SIZE delete
      requests, each for an entry whose resource is gone; each saved list is the old one or
      the old one filtered in order; and a cycle that ends normally has filtered them all. */
  lemma CycleIsSafe(gs: seq<Grafana>, crs: set<Key>, order: seq<nat>, f: Faults)
    requires VisitsEach(order, |gs|)
    ensures var r := SyncCycle(gs, crs, order, f);
            && |r.gs| == |gs| && |r.calls| <= 100
            && (forall q | q in r.calls :: Justified(q, gs, crs))
            && (forall j | 0 <= j < |gs| :: InstanceShape(gs[j], r.gs[j], crs))
            && (r.exit == Done ==> forall j | 0 <= j < |gs| :: r.gs[j].status == Kept(gs[j].status, crs))
  {
    SyncFromShape(Cycle(gs, 0, [], Done), crs, order, f);
    SyncFromJustified(Cycle(gs, 0, [], Done), crs, order, f, gs);
  }

  // What a cycle deletes

  /** Every stale entry of instance j was requested, and its dashboard is gone from the server. */
  ghost predicate Cleared(g: Grafana, h: Grafana, j: nat, calls: seq<Request>, crs: set<Key>) {
    forall e | e in g.status && KeyOf(e) !in crs :: Request(j, UidOf(e)) in calls && UidOf(e) !in h.dashes
  }

  /** What was not requested stays on the server. */
  ghost predicate Spared(g: Grafana, h: Grafana, j: nat, calls: seq<Request>) {
    forall u | u in g.dashes && Request(j, u) !in calls :: u in h.dashes && h.dashes[u] == g.dashes[u]
  }

  /** No call that is made for an instance with stale entries fails. */
  ghost predicate Undisturbed(g: Grafana, j: nat, crs: set<Key>, f: Faults) {
    HasStale(g, crs) ==>
      && f(j, NewClient) == NoFault && f(j, SaveInstance) == NoFault
      && forall n: nat | n < |Stale(g.status, crs)| :: f(j, DeleteEntry(n)) == NoFault
  }

  lemma {:induction false} EntriesSpared(b: Batch, stale: seq<string>, n: nat, i: nat, f: Faults)
    requires n <= |stale|
    ensures var r := DeleteEntries(b, stale, n, i, f);
            (forall q | q in b.calls :: q in r.calls) && Spared(b.g, r.g, i, r.calls)
    decreases |stale| - n
  {
    if n < |stale| && b.synced < SYNC_BATCH_SIZE && f(i, DeleteEntry(n)) == NoFault {
      var b' := Sent(b, stale[n], i);
      EntriesSpared(b', stale, n + 1, i, f);
      assert Request(i, UidOf(stale[n])) in b'.calls;
    }
  }

  /** The entry was requested without a fault, and its dashboard is gone. */
  ghost predicate EntryGone(r: Batch, stale: seq<string>, m: nat, i: nat, f: Faults)
    requires m < |stale|
  {
    Request(i, UidOf(stale[m])) in r.calls && UidOf(stale[m]) !in r.g.dashes && f(i, DeleteEntry(m)) == NoFault
  }

  lemma {:induction false} EntriesGone(b: Batch, stale: seq<string>, n: nat, i: nat, f: Faults)
    requires n <= |stale| && b.synced <= SYNC_BATCH_SIZE
    ensures var r := DeleteEntries(b, stale, n, i, f);
            r.exit == Done ==> forall m: nat | n <= m < |stale| :: EntryGone(r, stale, m, i, f)
    decreases |stale| - n
  {
    if n < |stale| && b.synced < SYNC_BATCH_SIZE && f(i, DeleteEntry(n)) == NoFault {
      var b' := Sent(b, stale[n], i);
      EntriesGone(b', stale, n + 1, i, f);
      SentStaysGone(b', stale, n, i, f);
      var r := DeleteEntries(b', stale, n + 1, i, f);
      assert DeleteEntries(b, stale, n, i, f) == r;
      forall m: nat | n <= m < |stale| && r.exit == Done ensures EntryGone(r, stale, m, i, f) {
        if m > n {
          assert n + 1 <= m;
        }
      }
    }
  }

  lemma SentStaysGone(b': Batch, stale: seq<string>, n: nat, i: nat, f: Faults)
    requires n < |stale| && b'.synced <= SYNC_BATCH_SIZE && f(i, DeleteEntry(n)) == NoFault
    requires Request(i, UidOf(stale[n])) in b'.calls && UidOf(stale[n]) !in b'.g.dashes
    ensures EntryGone(DeleteEntries(b', stale, n + 1, i, f), stale, n, i, f)
  {
    EntriesSpared(b', stale, n + 1, i, f);
    DeleteEntriesShape(b', stale, n + 1, i, f);
  }

  lemma InstanceDeletes(c: Cycle, crs: set<Key>, i: nat, f: Faults)
    requires i < |c.gs| && c.synced <= SYNC_BATCH_SIZE
    ensures var d := SyncInstance(c, crs, i, f);
            && (forall q | q in c.calls :: q in d.calls) && Spared(c.gs[i], d.gs[i], i, d.calls)
            && (d.exit == Done || d.gs[i].status != c.gs[i].status ==> Cleared(c.gs[i], d.gs[i], i, d.calls, crs))
            && (d.exit == Done ==> Undisturbed(c.gs[i], i, crs, f))
  {
    var g := c.gs[i];
    var stale := Stale(g.status, crs);
    var b := Batch(g, g.status, c.synced, c.calls, Done);
    StaleMembers(g.status, crs);
    EntriesSpared(b, stale, 0, i, f);
    EntriesGone(b, stale, 0, i, f);
    DeleteEntriesShape(b, stale, 0, i, f);
    var r := DeleteEntries(b, stale, 0, i, f);
    if r.exit == Done {
      forall e | e in g.status && KeyOf(e) !in crs
        ensures Request(i, UidOf(e)) in r.calls && UidOf(e) !in r.g.dashes
      {
        assert e in stale;
        var m: nat :| m < |stale| && stale[m] == e;
        assert EntryGone(r, stale, m, i, f);
      }
      assert forall m: nat | m < |stale| :: EntryGone(r, stale, m, i, f) ==> f(i, DeleteEntry(m)) == NoFault;
    }
  }

  lemma {:induction false} CallsStay(c: Cycle, crs: set<Key>, order: seq<nat>, f: Faults)
    requires forall a | 0 <= a < |order| :: order[a] < |c.gs|
    requires |c.calls| <= c.synced <= SYNC_BATCH_SIZE
    ensures forall q | q in c.calls :: q in SyncFrom(c, crs, order, f).calls
    decreases |order|
  {
    if order != [] {
      var d := SyncInstance(c, crs, order[0], f);
      SyncInstanceShape(c, crs, order[0], f);
      InstanceDeletes(c, crs, order[0], f);
      if d.exit == Done {
        CallsStay(d, crs, order[1..], f);
      }
    }
  }

  /** What the cycle did to instance j, given all requests it made. */
  ghost predicate Purged(g: Grafana, h: Grafana, j: nat, calls: seq<Request>, crs: set<Key>) {
    Spared(g, h, j, calls) && (h.status != g.status ==> Cleared(g, h, j, calls, crs))
  }

  ghost predicate Finished(g: Grafana, h: Grafana, j: nat, calls: seq<Request>, crs: set<Key>, f: Faults) {
    Cleared(g, h, j, calls, crs) && Undisturbed(g, j, crs, f)
  }

  lemma PurgedWithMore(g: Grafana, h: Grafana, j: nat, calls: seq<Request>, more: seq<Request>, crs: set<Key>, f: Faults)
    requires forall q | q in calls :: q in more
    ensures Purged(g, h, j, calls, crs) ==> Purged(g, h, j, more, crs)
    ensures Finished(g, h, j, calls, crs, f) ==> Finished(g, h, j, more, crs, f)
  {
  }

  lemma {:induction false} SyncFromDeletes(c: Cycle, crs: set<Key>, order: seq<nat>, f: Faults)
    requires (forall a | 0 <= a < |order| :: order[a] < |c.gs|) && forall a, b | 0 <= a < b < |order| :: order[a] != order[b]
    requires |c.calls| <= c.synced <= SYNC_BATCH_SIZE
    ensures var r := SyncFrom(c, crs, order, f);
            && (forall j: nat | j < |c.gs| :: Purged(c.gs[j], r.gs[j], j, r.calls, crs))
            && (r.exit == Done ==> forall j: nat | j < |c.gs| && j in order ::
                                     Finished(c.gs[j], r.gs[j], j, r.calls, crs, f))
    decreases |order|
  {
    if order != [] {
      var i := order[0];
      var d, r := SyncInstance(c, crs, i, f), SyncFrom(c, crs, order, f);
      SyncInstanceShape(c, crs, i, f);
      InstanceDeletes(c, crs, i, f);
      assert order == [i] + order[1..];
      if d.exit == Done {
        SyncFromDeletes(d, crs, order[1..], f);
        SyncFromShape(d, crs, order[1..], f);
        CallsStay(d, crs, order[1..], f);
        assert i !in order[1..];
        PurgedWithMore(c.gs[i], d.gs[i], i, d.calls, r.calls, crs, f);
      }
    }
  }

  /** MAIN: whatever fails, entries leave a saved list only if all stale ones of that instance were
      requested and their dashboards are gone; a cycle that ends normally has done so everywhere,
      with no call failing; and a dashboard that was not requested stays. */
  lemma CycleDeletes(gs: seq<Grafana>, crs: set<Key>, order: seq<nat>, f: Faults)
    requires VisitsEach(order, |gs|)
    ensures var r := SyncCycle(gs, crs, order, f);
            && |r.gs| == |gs| && (forall j: nat | j < |gs| :: Purged(gs[j], r.gs[j], j, r.calls, crs))
            && (r.exit == Done ==> f(0, ListInstances) == NoFault && (gs != [] ==> f(0, ListResources) == NoFault)
                                   && forall j: nat | j < |gs| :: Finished(gs[j], r.gs[j], j, r.calls, crs, f))
  {
    SyncFromDeletes(Cycle(gs, 0, [], Done), crs, order, f);
  }

  // Convergence of the retry loop

  predicate HasStale(g: Grafana, crs: set<Key>) {
    Stale(g.status, crs) != []
  }

  function StaleInstances(gs: seq<Grafana>, crs: set<Key>): set<nat> {
    set i: nat | i < |gs| && HasStale(gs[i], crs)
  }

  predicate Bounded(gs: seq<Grafana>, crs: set<Key>) {
    forall g | g in gs :: |Stale(g.status, crs)| <= 100
  }

  lemma StaleOnlyShrinks(g: Grafana, h: Grafana, crs: set<Key>)
    requires InstanceShape(g, h, crs)
    ensures HasStale(h, crs) ==> h.status == g.status
  {
    KeptIsClean(g.status, crs);
  }

  lemma SyncInstanceWithoutFaults(c: Cycle, crs: set<Key>, i: nat)
    requires i < |c.gs| && |c.calls| <= c.synced <= SYNC_BATCH_SIZE
    ensures var d := SyncInstance(c, crs, i, NoFaults()); var stale := Stale(c.gs[i].status, crs);
            && d.exit == (if stale == [] || c.synced + |stale| <= SYNC_BATCH_SIZE then Done else BatchFull)
            && (d.exit == Done ==> d.synced == c.synced + |stale|)
  {
    var g := c.gs[i];
    var stale := Stale(g.status, crs);
    if stale != [] {
      var b := Batch(g, g.status, c.synced, c.calls, Done);
      DeleteEntriesWithoutFaults(b, stale, 0, i);
      AllEntriesFilter(b, crs, i, NoFaults());
    }
  }

  /** Instance i lost its stale entries, and j was another one that had some. */
  predicate ClearsOne(gs: seq<Grafana>, hs: seq<Grafana>, crs: set<Key>, i: nat, j: nat) {
    && i < |gs| == |hs| && j < |gs| && i != j
    && HasStale(gs[i], crs) && !HasStale(hs[i], crs) && HasStale(gs[j], crs)
  }

  /** From the start of a cycle, either everything in the order is cleared, or at least the
      first instance with stale entries is. */
  lemma {:induction false} SyncFromClears(c: Cycle, crs: set<Key>, order: seq<nat>)
    requires forall a | 0 <= a < |order| :: order[a] < |c.gs|
    requires c.synced == 0 && c.calls == [] && Bounded(c.gs, crs)
    ensures var r := SyncFrom(c, crs, order, NoFaults());
            r.exit == Done ||
            (r.exit == BatchFull && exists i, j :: ClearsOne(c.gs, r.gs, crs, i, j))
    decreases |order|
  {
    if order != [] {
      var i := order[0];
      var d := SyncInstance(c, crs, i, NoFaults());
      SyncInstanceShape(c, crs, i, NoFaults());
      SyncInstanceWithoutFaults(c, crs, i);
      assert c.gs[i] in c.gs;
      assert order == [i] + order[1..];
      if !HasStale(c.gs[i], crs) {
        assert d == c.(exit := Done);
        SyncFromClears(d, crs, order[1..]);
      } else {
        KeptIsClean(c.gs[i].status, crs);
        SyncFromShape(d, crs, order[1..], NoFaults());
        SyncFromStopsAtStale(d, crs, order[1..]);
        var r := SyncFrom(c, crs, order, NoFaults());
        if r.exit != Done {
          var j: nat :| j < |c.gs| && j in order[1..] && HasStale(d.gs[j], crs);
          KeptIsClean(d.gs[i].status, crs);
          assert ClearsOne(c.gs, r.gs, crs, i, j);
        }
      }
    }
  }

  /** Without faults a cycle fails for no reason but a full batch, at an instance with stale entries. */
  lemma {:induction false} SyncFromStopsAtStale(c: Cycle, crs: set<Key>, order: seq<nat>)
    requires forall a | 0 <= a < |order| :: order[a] < |c.gs|
    requires |c.calls| <= c.synced <= SYNC_BATCH_SIZE
    ensures var r := SyncFrom(c, crs, order, NoFaults());
            r.exit == Done ||
            (r.exit == BatchFull && exists j: nat :: j < |c.gs| && j in order && HasStale(c.gs[j], crs))
    decreases |order|
  {
    if order != [] {
      var i := order[0];
      var d := SyncInstance(c, crs, i, NoFaults());
      SyncInstanceShape(c, crs, i, NoFaults());
      SyncInstanceWithoutFaults(c, crs, i);
      assert order == [i] + order[1..];
      if d.exit == Done {
        SyncFromStopsAtStale(d, crs, order[1..]);
        StaleOnlyShrinks(c.gs[i], d.gs[i], crs);
      }
    }
  }

  lemma StaleInstancesShrink(gs: seq<Grafana>, hs: seq<Grafana>, crs: set<Key>)
    requires |hs| == |gs| && forall j | 0 <= j < |gs| :: InstanceShape(gs[j], hs[j], crs)
    ensures StaleInstances(hs, crs) <= StaleInstances(gs, crs)
    ensures Bounded(gs, crs) ==> Bounded(hs, crs)
  {
    forall j | 0 <= j < |gs|
      ensures HasStale(hs[j], crs) ==> HasStale(gs[j], crs)
      ensures |Stale(hs[j].status, crs)| <= |Stale(gs[j].status, crs)|
    {
      KeptIsClean(gs[j].status, crs);
    }
    if Bounded(gs, crs) {
      forall h | h in hs ensures |Stale(h.status, crs)| <= SYNC_BATCH_SIZE {
        var j :| 0 <= j < |hs| && hs[j] == h;
        assert gs[j] in gs;
      }
    }
  }

  lemma AllKeptNoneStale(gs: seq<Grafana>, hs: seq<Grafana>, crs: set<Key>)
    requires |hs| == |gs| && forall j | 0 <= j < |gs| :: hs[j].status == Kept(gs[j].status, crs)
    ensures StaleInstances(hs, crs) == {}
  {
    forall j | 0 <= j < |gs| ensures !HasStale(hs[j], crs) { KeptIsClean(gs[j].status, crs); }
  }

  /** One fault-free cycle from a bounded state: finished with nothing stale left, or a strictly
      smaller set of instances with stale entries, and never finished late. */
  lemma CycleProgress(gs: seq<Grafana>, crs: set<Key>, order: seq<nat>)
    requires VisitsEach(order, |gs|) && Bounded(gs, crs)
    ensures var r := SyncCycle(gs, crs, order, NoFaults());
            && r.exit != Failed && |r.gs| == |gs| && Bounded(r.gs, crs)
            && (r.exit == Done ==> StaleInstances(r.gs, crs) == {})
            && (r.exit == BatchFull ==> StaleInstances(r.gs, crs) < StaleInstances(gs, crs)
                                        && 2 <= |StaleInstances(gs, crs)|)
  {
    var r := SyncCycle(gs, crs, order, NoFaults());
    CycleIsSafe(gs, crs, order, NoFaults());
    StaleInstancesShrink(gs, r.gs, crs);
    SyncFromClears(Cycle(gs, 0, [], Done), crs, order);
    if r.exit == Done {
      AllKeptNoneStale(gs, r.gs, crs);
    } else {
      var i: nat, j: nat :| ClearsOne(gs, r.gs, crs, i, j);
      ClearingShrinks(gs, r.gs, crs, i, j);
    }
  }

  lemma ClearingShrinks(gs: seq<Grafana>, hs: seq<Grafana>, crs: set<Key>, i: nat, j: nat)
    requires ClearsOne(gs, hs, crs, i, j)
    ensures StaleInstances(hs, crs) != StaleInstances(gs, crs)
    ensures 2 <= |StaleInstances(gs, crs)|
  {
    assert i in StaleInstances(gs, crs) && i !in StaleInstances(hs, crs);
    Subset({i, j}, StaleInstances(gs, crs));
  }

  lemma {:induction false} Subset<T>(a: set<T>, b: set<T>)
    requires a <= b
    ensures |a| <= |b|
    ensures a < b ==> |a| < |b|
  {
    if a != {} {
      var x :| x in a;
      Subset(a - {x}, b - {x});
    }
  }

  /** The map order and the failing calls of every cycle. */
  datatype Plan = Plan(orders: nat -> seq<nat>, faults: nat -> Faults)

  ghost predicate PlanOk(plan: Plan, n: nat) {
    forall k :: VisitsEach(plan.orders(k), n)
  }

  /** From the k-th cycle on no call fails. */
  ghost predicate QuietFrom(plan: Plan, k: nat) {
    forall m: nat | k <= m :: plan.faults(m) == NoFaults()
  }

  /** The instances after n cycles. */
  ghost function After(gs: seq<Grafana>, crs: set<Key>, plan: Plan, n: nat): (r: seq<Grafana>)
    requires PlanOk(plan, |gs|)
    ensures |r| == |gs|
  {
    if n == 0 then gs else SyncCycle(After(gs, crs, plan, n - 1), crs, plan.orders(n - 1), plan.faults(n - 1)).gs
  }

  ghost function ExitAt(gs: seq<Grafana>, crs: set<Key>, plan: Plan, n: nat): Exit
    requires PlanOk(plan, |gs|)
  {
    SyncCycle(After(gs, crs, plan, n), crs, plan.orders(n), plan.faults(n)).exit
  }

  /** The instances with stale entries after n cycles. */
  ghost function StaleAfter(gs: seq<Grafana>, crs: set<Key>, plan: Plan, n: nat): set<nat>
    requires PlanOk(plan, |gs|)
  {
    StaleInstances(After(gs, crs, plan, n), crs)
  }

  /** Cycle m asks for another one and clears at least one instance completely. */
  ghost predicate Requeues(gs: seq<Grafana>, crs: set<Key>, plan: Plan, m: nat)
    requires PlanOk(plan, |gs|)
  {
    ExitAt(gs, crs, plan, m) == BatchFull && StaleAfter(gs, crs, plan, m + 1) < StaleAfter(gs, crs, plan, m)
  }

  /** Whatever fails, nothing becomes stale, and a cycle that ends normally leaves nothing stale. */
  lemma AnyCycle(gs: seq<Grafana>, crs: set<Key>, plan: Plan, n: nat)
    requires PlanOk(plan, |gs|)
    ensures Bounded(After(gs, crs, plan, n), crs) ==> Bounded(After(gs, crs, plan, n + 1), crs)
    ensures ExitAt(gs, crs, plan, n) == Done ==> StaleAfter(gs, crs, plan, n + 1) == {}
  {
    var before := After(gs, crs, plan, n);
    var r := SyncCycle(before, crs, plan.orders(n), plan.faults(n));
    CycleIsSafe(before, crs, plan.orders(n), plan.faults(n));
    StaleInstancesShrink(before, r.gs, crs);
    if r.exit == Done {
      AllKeptNoneStale(before, r.gs, crs);
    }
  }

  lemma {:induction false} StaysBounded(gs: seq<Grafana>, crs: set<Key>, plan: Plan, n: nat)
    requires PlanOk(plan, |gs|) && Bounded(gs, crs)
    ensures Bounded(After(gs, crs, plan, n), crs)
  {
    if n > 0 {
      var m: nat := n - 1;
      StaysBounded(gs, crs, plan, m);
      AnyCycle(gs, crs, plan, m);
      assert n == m + 1;
    }
  }

  lemma QuietCycle(gs: seq<Grafana>, crs: set<Key>, plan: Plan, n: nat)
    requires PlanOk(plan, |gs|) && plan.faults(n) == NoFaults() && Bounded(After(gs, crs, plan, n), crs)
    ensures ExitAt(gs, crs, plan, n) == Done
            || (Requeues(gs, crs, plan, n) && 2 <= |StaleAfter(gs, crs, plan, n)|
                && |StaleAfter(gs, crs, plan, n + 1)| < |StaleAfter(gs, crs, plan, n)|)
  {
    var before := After(gs, crs, plan, n);
    CycleProgress(before, crs, plan.orders(n));
    Subset(StaleAfter(gs, crs, plan, n + 1), StaleAfter(gs, crs, plan, n) + StaleAfter(gs, crs, plan, n + 1));
    if StaleAfter(gs, crs, plan, n + 1) < StaleAfter(gs, crs, plan, n) {
      Subset(StaleAfter(gs, crs, plan, n + 1), StaleAfter(gs, crs, plan, n));
    }
  }

  /** From cycle k on the loop stops with cycle n, within the number of instances that then have stale
      entries; every cycle before the last clears an instance; and nothing stale is left. */
  ghost predicate StopsAt(gs: seq<Grafana>, crs: set<Key>, plan: Plan, k: nat, n: nat)
    requires PlanOk(plan, |gs|)
  {
    && k <= n && (n == k || n - k < |StaleAfter(gs, crs, plan, k)|)
    && (forall m: nat | k <= m < n :: Requeues(gs, crs, plan, m))
    && ExitAt(gs, crs, plan, n) == Done && StaleAfter(gs, crs, plan, n + 1) == {}
  }

  lemma StopsNow(gs: seq<Grafana>, crs: set<Key>, plan: Plan, k: nat)
    requires PlanOk(plan, |gs|) && ExitAt(gs, crs, plan, k) == Done
    ensures StopsAt(gs, crs, plan, k, k)
  {
    AnyCycle(gs, crs, plan, k);
  }

  lemma StopsLater(gs: seq<Grafana>, crs: set<Key>, plan: Plan, k: nat, n: nat)
    requires PlanOk(plan, |gs|) && Requeues(gs, crs, plan, k) && StopsAt(gs, crs, plan, k + 1, n)
    requires 2 <= |StaleAfter(gs, crs, plan, k)|
    requires |StaleAfter(gs, crs, plan, k + 1)| < |StaleAfter(gs, crs, plan, k)|
    ensures StopsAt(gs, crs, plan, k, n)
  {
    forall m: nat | k <= m < n ensures Requeues(gs, crs, plan, m) {
      assert m != k ==> k + 1 <= m;
    }
  }

  /** MAIN: with at most SYNC_BATCH_SIZE stale entries per instance, once calls have stopped failing the
      retry loop stops within max(1, number of instances that then have stale entries) cycles, for
      all map orders; every cycle before the last clears an instance completely; and at the end
      nothing stale is saved anywhere. */
  lemma {:induction false} LoopConverges(gs: seq<Grafana>, crs: set<Key>, plan: Plan, k: nat) returns (n: nat)
    requires PlanOk(plan, |gs|) && QuietFrom(plan, k) && Bounded(After(gs, crs, plan, k), crs)
    ensures StopsAt(gs, crs, plan, k, n)
    decreases |StaleAfter(gs, crs, plan, k)|
  {
    if ExitAt(gs, crs, plan, k) == Done {
      n := k;
      StopsNow(gs, crs, plan, k);
    } else {
      QuietCycle(gs, crs, plan, k);
      AnyCycle(gs, crs, plan, k);
      n := LoopConverges(gs, crs, plan, k + 1);
      StopsLater(gs, crs, plan, k, n);
    }
  }

  /** An instance over the limit is not cleared, whatever fails. */
  lemma OversizedInstance(c: Cycle, crs: set<Key>, i: nat, f: Faults)
    requires i < |c.gs| && |c.calls| <= c.synced <= SYNC_BATCH_SIZE
    requires SYNC_BATCH_SIZE < |Stale(c.gs[i].status, crs)|
    ensures var d := SyncInstance(c, crs, i, f); d.exit != Done && d.gs[i].status == c.gs[i].status
  {
    var g := c.gs[i];
    var b := Batch(g, g.status, c.synced, c.calls, Done);
    DeleteEntriesShape(b, Stale(g.status, crs), 0, i, f);
    AllEntriesFilter(b, crs, i, f);
  }

  /** So it is never saved, and no cycle ends normally. */
  lemma {:induction false} SyncFromNeverSaves(c: Cycle, crs: set<Key>, order: seq<nat>, i: nat, f: Faults)
    requires forall a | 0 <= a < |order| :: order[a] < |c.gs|
    requires |c.calls| <= c.synced <= SYNC_BATCH_SIZE
    requires i < |c.gs| && SYNC_BATCH_SIZE < |Stale(c.gs[i].status, crs)|
    ensures var r := SyncFrom(c, crs, order, f);
            r.gs[i].status == c.gs[i].status && (i in order ==> r.exit != Done)
    decreases |order|
  {
    if order != [] {
      var j := order[0];
      var d := SyncInstance(c, crs, j, f);
      SyncInstanceShape(c, crs, j, f);
      if j == i {
        OversizedInstance(c, crs, i, f);
      }
      assert order == [j] + order[1..];
      if d.exit == Done {
        SyncFromNeverSaves(d, crs, order[1..], i, f);
      }
    }
  }

  lemma OversizedCycle(gs: seq<Grafana>, crs: set<Key>, order: seq<nat>, i: nat, f: Faults)
    requires VisitsEach(order, |gs|)
    requires i < |gs| && SYNC_BATCH_SIZE < |Stale(gs[i].status, crs)|
    ensures var r := SyncCycle(gs, crs, order, f);
            && r.gs[i].status == gs[i].status && r.exit != Done && (f == NoFaults() ==> r.exit == BatchFull)
  {
    SyncFromNeverSaves(Cycle(gs, 0, [], Done), crs, order, i, f);
    SyncFromStopsAtStale(Cycle(gs, 0, [], Done), crs, order);
  }

  /** MAIN: the bound is tight. With one instance that has more stale entries than the batch size no
      cycle ends normally, whatever fails; every fault-free one asks for another; and the saved list
      of that instance stays as it was, because the early return skips the save. */
  lemma {:induction false} OversizedNeverFinishes(gs: seq<Grafana>, crs: set<Key>, plan: Plan, i: nat, n: nat)
    requires PlanOk(plan, |gs|)
    requires i < |gs| && SYNC_BATCH_SIZE < |Stale(gs[i].status, crs)|
    ensures After(gs, crs, plan, n)[i].status == gs[i].status
    ensures ExitAt(gs, crs, plan, n) != Done
    ensures plan.faults(n) == NoFaults() ==> ExitAt(gs, crs, plan, n) == BatchFull
  {
    if n > 0 {
      var m: nat := n - 1;
      OversizedNeverFinishes(gs, crs, plan, i, m);
      OversizedCycle(After(gs, crs, plan, m), crs, plan.orders(m), i, plan.faults(m));
      assert n == m + 1;
    }
    OversizedCycle(After(gs, crs, plan, n), crs, plan.orders(n), i, plan.faults(n));
  }

  /** MAIN: the exact condition for the retry loop to end, if calls fail in finitely many cycles only:
      no instance is over the limit. When it ends, nothing stale is saved anywhere. */
  lemma FinishesIffBounded(gs: seq<Grafana>, crs: set<Key>, plan: Plan, k: nat)
    requires PlanOk(plan, |gs|) && QuietFrom(plan, k)
    ensures (exists n: nat :: ExitAt(gs, crs, plan, n) == Done) <==> Bounded(gs, crs)
    ensures forall n: nat | ExitAt(gs, crs, plan, n) == Done :: StaleAfter(gs, crs, plan, n + 1) == {}
  {
    if Bounded(gs, crs) {
      StaysBounded(gs, crs, plan, k);
      var n := LoopConverges(gs, crs, plan, k);
    } else {
      var g :| g in gs && SYNC_BATCH_SIZE < |Stale(g.status, crs)|;
      var i :| 0 <= i < |gs| && gs[i] == g;
      forall n: nat ensures ExitAt(gs, crs, plan, n) != Done {
        OversizedNeverFinishes(gs, crs, plan, i, n);
      }
    }
    forall n: nat | ExitAt(gs, crs, plan, n) == Done ensures StaleAfter(gs, crs, plan, n + 1) == {} {
      AnyCycle(gs, crs, plan, n);
    }
  }

  /** The loop has run n cycles, and ended with the last of them if `done`. */
  ghost predicate Ran(gs: seq<Grafana>, crs: set<Key>, plan: Plan, n: nat, done: bool)
    requires PlanOk(plan, |gs|)
  {
    && (forall m: nat | m < n && (m + 1 < n || !done) :: ExitAt(gs, crs, plan, m) != Done)
    && (done ==> n > 0 && ExitAt(gs, crs, plan, n - 1) == Done)
  }

  lemma RanOnce(gs: seq<Grafana>, crs: set<Key>, plan: Plan, n: nat)
    requires PlanOk(plan, |gs|) && Ran(gs, crs, plan, n, false)
    ensures Ran(gs, crs, plan, n + 1, ExitAt(gs, crs, plan, n) == Done)
  {
  }

  /** A loop that has ended has left nothing stale, and only does so with no instance over the limit.
      Without failing calls it has then ended after enough cycles. */
  lemma RanMeans(gs: seq<Grafana>, crs: set<Key>, plan: Plan, n: nat, done: bool)
    requires PlanOk(plan, |gs|) && Ran(gs, crs, plan, n, done)
    ensures done ==> StaleAfter(gs, crs, plan, n) == {} && Bounded(gs, crs)
    ensures (QuietFrom(plan, 0) && Bounded(gs, crs) && 0 < n && |StaleInstances(gs, crs)| <= n) ==> done
  {
    if done {
      var m: nat := n - 1;
      AnyCycle(gs, crs, plan, m);
      assert n == m + 1;
      forall g | g in gs ensures |Stale(g.status, crs)| <= SYNC_BATCH_SIZE {
        var i :| 0 <= i < |gs| && gs[i] == g;
        if SYNC_BATCH_SIZE < |Stale(g.status, crs)| {
          OversizedNeverFinishes(gs, crs, plan, i, m);
        }
      }
    } else if QuietFrom(plan, 0) && Bounded(gs, crs) {
      var k := LoopConverges(gs, crs, plan, 0);
      assert StopsAt(gs, crs, plan, 0, k) && After(gs, crs, plan, 0) == gs;
    }
  }
}
