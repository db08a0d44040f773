/** The dashboard controller in its imperative form (controllers/dashboard_controller.go),
    proved against the specifications of Sync, Deletion and Creation. */
module Reconciler {
  import opened Wrappers
  import opened Resources
  import opened Inputs
  import opened Cluster
  import opened Sync
  import opened Deletion
  import opened Creation

  /** A dashboard resource in the controller's memory, shared by the rounds of one reconcile. */
  class DashboardObject {
    var cr: Dashboard

    constructor (cr: Dashboard)
      ensures this.cr == cr
    {
      this.cr := cr;
    }
  }

  /** The stale entries of every instance that has some. */
  method GetDashboardsToDelete(crs: map<Key, Dashboard>, grafanas: seq<Grafana>)
    returns (toDelete: map<nat, seq<string>>)
    requires forall g | g in grafanas :: AllSplittable(g.status)
    ensures forall i: nat :: i in toDelete <==> i < |grafanas| && HasStale(grafanas[i], crs.Keys)
    ensures forall i | i in toDelete :: toDelete[i] == Stale(grafanas[i].status, crs.Keys)
  {
    toDelete := map[];
    for i := 0 to |grafanas|
      invariant forall j: nat :: j in toDelete <==> j < i && HasStale(grafanas[j], crs.Keys)
      invariant forall j | j in toDelete :: toDelete[j] == Stale(grafanas[j].status, crs.Keys)
    {
      assert grafanas[i] in grafanas;
      var stale := StaleEntries(grafanas[i].status, crs);
      if stale != [] {
        toDelete := toDelete[i := stale];
      }
    }
  }

  method StaleEntries(status: seq<string>, crs: map<Key, Dashboard>) returns (stale: seq<string>)
    requires AllSplittable(status)
    ensures stale == Stale(status, crs.Keys)
  {
    stale := [];
    for n := 0 to |status|
      invariant stale + Stale(status[n..], crs.Keys) == Stale(status, crs.Keys)
    {
      assert status[n] in status && status[n..][1..] == status[n + 1..];
      var namespace, name, _ := Split(status[n]);
      if Key(namespace, name) !in crs {
        stale := stale + [status[n]];
      }
    }
  }

  lemma CycleKeepsSplittable(gs: seq<Grafana>, crs: set<Key>, order: seq<nat>, f: Faults)
    requires VisitsEach(order, |gs|) && forall g | g in gs :: AllSplittable(g.status)
    ensures forall g | g in SyncCycle(gs, crs, order, f).gs :: AllSplittable(g.status)
  {
    CycleIsSafe(gs, crs, order, f);
    var hs := SyncCycle(gs, crs, order, f).gs;
    forall h | h in hs ensures AllSplittable(h.status) {
      var j :| 0 <= j < |hs| && hs[j] == h;
      assert gs[j] in gs;
      KeptMembers(gs[j].status, crs);
      SubsetSplittable(gs[j].status, h.status);
    }
  }

  lemma RemovedSplittable(list: seq<string>, key: Key)
    requires AllSplittable(list)
    ensures AllSplittable(Removed(list, key))
  {
    RemovedMembers(list, key);
  }

  lemma SubsetSplittable(list: seq<string>, rest: seq<string>)
    requires AllSplittable(list) && forall e | e in rest :: e in list
    ensures AllSplittable(rest)
  {
  }

  class GrafanaDashboardReconciler {
    var grafanas: seq<Grafana>          // instances as saved, with their servers
    var dashboards: map<Key, Dashboard> // resources as saved

    constructor (grafanas: seq<Grafana>, dashboards: map<Key, Dashboard>)
      ensures this.grafanas == grafanas && this.dashboards == dashboards
    {
      this.grafanas := grafanas;
      this.dashboards := dashboards;
    }

    /** `order` is the order in which Go's range statement hands out the map of stale entries. */
    method SyncDashboards(order: seq<nat>, f: Faults)
      returns (requeue: bool, failed: bool, ghost calls: seq<Request>)
      requires VisitsEach(order, |grafanas|) && forall g | g in grafanas :: AllSplittable(g.status)
      modifies this`grafanas
      ensures forall g | g in grafanas :: AllSplittable(g.status)
      ensures var r := SyncCycle(old(grafanas), dashboards.Keys, order, f);
              grafanas == r.gs && calls == r.calls && failed == (r.exit == Failed)
              && (!failed ==> requeue == (r.exit == BatchFull))
      ensures |grafanas| == |old(grafanas)| && |calls| <= 100
      ensures forall j: nat | j < |grafanas| :: Purged(old(grafanas)[j], grafanas[j], j, calls, dashboards.Keys)
      ensures !failed && !requeue ==> forall j: nat | j < |grafanas| ::
                Finished(old(grafanas)[j], grafanas[j], j, calls, dashboards.Keys, f)
      ensures !failed && !requeue ==> forall i | 0 <= i < |grafanas| ::
                grafanas[i].status == Kept(old(grafanas[i].status), dashboards.Keys)
    {
      CycleIsSafe(grafanas, dashboards.Keys, order, f);
      CycleKeepsSplittable(grafanas, dashboards.Keys, order, f);
      CycleDeletes(grafanas, dashboards.Keys, order, f);
      calls := [];
      if f(0, ListInstances) != NoFault {
        return true, true, calls;
      }
      if |grafanas| == 0 {
        return false, false, calls;
      }
      if f(0, ListResources) != NoFault {
        return true, true, calls;
      }
      var toDelete := GetDashboardsToDelete(dashboards, grafanas);
      var exit;
      exit, calls := SyncInOrder(toDelete, order, f);
      return exit == BatchFull, exit == Failed, calls;
    }

    /** The loop over the map of stale entries. */
    method SyncInOrder(toDelete: map<nat, seq<string>>, order: seq<nat>, f: Faults)
      returns (exit: Exit, ghost calls: seq<Request>)
      requires VisitsEach(order, |grafanas|) && forall g | g in grafanas :: AllSplittable(g.status)
      requires forall i | 0 <= i < |grafanas| ::
                 var stale := Stale(grafanas[i].status, dashboards.Keys);
                 if stale == [] then i !in toDelete else i in toDelete && toDelete[i] == stale
      modifies this`grafanas
      ensures var r := SyncFrom(Cycle(old(grafanas), 0, [], Done), dashboards.Keys, order, f);
              grafanas == r.gs && calls == r.calls && exit == r.exit
    {
      calls, exit := [], Done;
      var dashboardsSynced := 0;
      ghost var total := SyncFrom(Cycle(grafanas, 0, [], Done), dashboards.Keys, order, f);
      for n := 0 to |order|
        invariant |grafanas| == |old(grafanas)| && exit == Done
        invariant SyncFrom(Cycle(grafanas, dashboardsSynced, calls, Done), dashboards.Keys, order[n..], f) == total
        invariant forall m | n <= m < |order| :: grafanas[order[m]] == old(grafanas)[order[m]]
      {
        var i := order[n];
        assert order[n..][1..] == order[n + 1..];
        assert grafanas[i] in old(grafanas);
        if i in toDelete {
          dashboardsSynced, calls, exit := SyncOne(i, toDelete[i], dashboardsSynced, calls, f);
          if exit != Done {
            return;
          }
        }
      }
    }

    /** One instance's share of the loop: its stale entries, then one update. */
    method SyncOne(i: nat, stale: seq<string>, synced: nat, ghost before: seq<Request>, f: Faults)
      returns (dashboardsSynced: nat, ghost calls: seq<Request>, exit: Exit)
      requires i < |grafanas| && stale == Stale(grafanas[i].status, dashboards.Keys) != []
      requires AllSplittable(grafanas[i].status)
      modifies this`grafanas
      ensures SyncInstance(Cycle(old(grafanas), synced, before, Done), dashboards.Keys, i, f)
           == Cycle(grafanas, dashboardsSynced, calls, exit)
      ensures forall j | 0 <= j < |grafanas| && j != i :: grafanas[j] == old(grafanas)[j]
    {
      dashboardsSynced, calls := synced, before;
      assert grafanas[i := grafanas[i]] == grafanas;
      if f(i, NewClient) != NoFault {
        return dashboardsSynced, calls, Failed;
      }
      StaleMembers(grafanas[i].status, dashboards.Keys);
      SubsetSplittable(grafanas[i].status, stale);
      var status;
      status, dashboardsSynced, calls, exit := DeleteStale(i, stale, synced, before, f);
      if exit != Done {
        return;
      }
      if f(i, SaveInstance) != Lost {
        grafanas := grafanas[i := grafanas[i].(status := status)];
      }
      if f(i, SaveInstance) != NoFault {
        exit := Failed;
      }
    }

    /** The delete requests for one instance; `status` is the list of its in-memory copy. */
    method DeleteStale(i: nat, stale: seq<string>, synced: nat, ghost before: seq<Request>, f: Faults)
      returns (status: seq<string>, dashboardsSynced: nat, ghost calls: seq<Request>, exit: Exit)
      requires i < |grafanas| && AllSplittable(grafanas[i].status) && AllSplittable(stale)
      modifies this`grafanas
      ensures var g := old(grafanas)[i];
              var b := DeleteEntries(Batch(g, g.status, synced, before, Done), stale, 0, i, f);
              && b == Batch(b.g, status, dashboardsSynced, calls, exit)
              && grafanas == old(grafanas)[i := b.g]
    {
      status, dashboardsSynced, calls, exit := grafanas[i].status, synced, before, Done;
      ghost var b := DeleteEntries(Batch(grafanas[i], status, synced, before, Done), stale, 0, i, f);
      for k := 0 to |stale|
        invariant |grafanas| == |old(grafanas)| && exit == Done && AllSplittable(status)
        invariant grafanas == old(grafanas)[i := grafanas[i]]
        invariant DeleteEntries(Batch(grafanas[i], status, dashboardsSynced, calls, Done), stale, k, i, f) == b
      {
        if dashboardsSynced >= SYNC_BATCH_SIZE {
          exit := BatchFull;
          return;
        }
        calls := calls + [Request(i, UidOf(stale[k]))];
        status, exit := DeleteOne(i, stale, k, status, f(i, DeleteEntry(k)));
        if exit != Done {
          return;
        }
        dashboardsSynced := dashboardsSynced + 1;
      }
    }

    /** The delete request for the k-th entry; a fault-free one takes it out of the list. */
    method DeleteOne(i: nat, stale: seq<string>, k: nat, list: seq<string>, fault: Fault)
      returns (status: seq<string>, exit: Exit)
      requires i < |grafanas| && k < |stale| && AllSplittable(stale) && AllSplittable(list)
      modifies this`grafanas
      ensures grafanas == if fault == Lost then old(grafanas)
                          else old(grafanas)[i := DropDash(old(grafanas)[i], UidOf(stale[k]))]
      ensures exit == (if fault == NoFault then Done else Failed) && AllSplittable(status)
      ensures status == if fault == NoFault then Removed(list, KeyOf(stale[k])) else list
    {
      assert stale[k] in stale;
      var namespace, name, uid := Split(stale[k]);
      if fault != Lost {
        grafanas := grafanas[i := DropDash(grafanas[i], uid)];
      }
      if fault != NoFault {
        return list, Failed;
      }
      RemovedSplittable(list, Key(namespace, name));
      status := Remove(list, Key(namespace, name));
      exit := Done;
    }

    /** The goroutine of SetupWithManager: cycle after cycle, also after a failed one, until one ends
        normally or the context is cancelled, which happens before the cycle `cancelled`. */
    method SyncUntilDone(plan: Plan, cancelled: nat) returns (cycles: nat, done: bool)
      requires PlanOk(plan, |grafanas|) && forall g | g in grafanas :: AllSplittable(g.status)
      modifies this`grafanas
      ensures |grafanas| == |old(grafanas)| && cycles <= cancelled
      ensures grafanas == After(old(grafanas), dashboards.Keys, plan, cycles)
      ensures Ran(old(grafanas), dashboards.Keys, plan, cycles, done) && (!done ==> cycles == cancelled)
      ensures done ==> StaleInstances(grafanas, dashboards.Keys) == {} && Bounded(old(grafanas), dashboards.Keys)
      ensures (QuietFrom(plan, 0) && Bounded(old(grafanas), dashboards.Keys)
               && 0 < cancelled && |StaleInstances(old(grafanas), dashboards.Keys)| <= cancelled) ==> done
    {
      ghost var gs := grafanas;
      cycles, done := 0, false;
      while cycles < cancelled && !done
        invariant |grafanas| == |gs| && cycles <= cancelled && forall g | g in grafanas :: AllSplittable(g.status)
        invariant grafanas == After(gs, dashboards.Keys, plan, cycles)
        invariant Ran(gs, dashboards.Keys, plan, cycles, done)
        decreases cancelled - cycles
      {
        RanOnce(gs, dashboards.Keys, plan, cycles);
        done := SyncOnce(gs, plan, cycles);
        cycles := cycles + 1;
      }
      RanMeans(gs, dashboards.Keys, plan, cycles, done);
    }

    /** The n-th cycle of the loop that started from `gs`. */
    method SyncOnce(ghost gs: seq<Grafana>, plan: Plan, n: nat) returns (done: bool)
      requires PlanOk(plan, |gs|) && |grafanas| == |gs| && forall g | g in grafanas :: AllSplittable(g.status)
      requires grafanas == After(gs, dashboards.Keys, plan, n)
      modifies this`grafanas
      ensures grafanas == After(gs, dashboards.Keys, plan, n + 1) && |grafanas| == |gs|
      ensures forall g | g in grafanas :: AllSplittable(g.status)
      ensures done <==> ExitAt(gs, dashboards.Keys, plan, n) == Done
    {
      assert VisitsEach(plan.orders(n), |grafanas|);
      var requeue, failed, _ := SyncDashboards(plan.orders(n), plan.faults(n));
      return !failed && !requeue;
    }

    method DeleteFolderIfEmpty(i: nat, id: int, f: Faults) returns (ok: bool)
      requires i < |grafanas|
      modifies this`grafanas
      ensures grafanas == old(grafanas)[i := FolderIfEmptyDeleted(old(grafanas)[i], id, i, f).g]
      ensures ok == FolderIfEmptyDeleted(old(grafanas)[i], id, i, f).ok
    {
      if f(i, ListDashboards) != NoFault {
        return false;
      }
      if exists u | u in grafanas[i].dashes :: grafanas[i].dashes[u].folder == id {
        return true;
      }
      if f(i, GetFolder) != NoFault || !HasFolder(grafanas[i].folders, id) {
        return false;
      }
      if f(i, DeleteFolder) != Lost {
        grafanas := grafanas[i := DropFolder(grafanas[i], id)];
      }
      return f(i, DeleteFolder) == NoFault;
    }

    method OnDashboardDeleted(key: Key, f: Faults) returns (ok: bool)
      requires forall g | g in grafanas :: AllSplittable(g.status)
      modifies this`grafanas
      ensures (grafanas, ok) == Deleted(old(grafanas), key, f)
      ensures ok ==> forall i | 0 <= i < |grafanas| ::
                grafanas[i].status == Removed(old(grafanas[i].status), key) && Found(grafanas[i].status, key) == None
      ensures ok ==> forall i | 0 <= i < |grafanas| ::
                FolderFollows(old(grafanas)[i], grafanas[i], Found(old(grafanas[i].status), key))
    {
      if f(0, ListInstances) != NoFault {
        return false;
      }
      ok := DeleteOnEach(key, f);
      if ok {
        DeletionIsComplete(old(grafanas), key, f);
        FoldersFollow(old(grafanas), key, f);
      }
    }

    /** The loop over the instances. */
    method DeleteOnEach(key: Key, f: Faults) returns (ok: bool)
      requires forall g | g in grafanas :: AllSplittable(g.status)
      modifies this`grafanas
      ensures (grafanas, ok) == DeletedEverywhere(old(grafanas), 0, key, f)
    {
      for i := 0 to |grafanas|
        invariant |grafanas| == |old(grafanas)|
        invariant DeletedEverywhere(grafanas, i, key, f) == DeletedEverywhere(old(grafanas), 0, key, f)
        invariant forall j | i <= j < |grafanas| :: grafanas[j] == old(grafanas)[j]
      {
        ghost var start := grafanas;
        assert grafanas[i] in old(grafanas);
        var found, uid := Find(grafanas[i].status, key);
        if !found {
          assert grafanas[i := grafanas[i]] == grafanas;
          continue;
        }
        var deleted := OnDashboardDeletedFrom(i, key, uid, f);
        if !deleted {
          return false;
        }
      }
      return true;
    }

    /** The body of the loop for an instance that lists the key under `uid`. */
    method OnDashboardDeletedFrom(i: nat, key: Key, uid: string, f: Faults) returns (ok: bool)
      requires i < |grafanas| && AllSplittable(grafanas[i].status)
      modifies this`grafanas
      ensures grafanas == old(grafanas)[i := DeletedFrom(old(grafanas)[i], i, key, uid, f).g]
      ensures ok == DeletedFrom(old(grafanas)[i], i, key, uid, f).ok
    {
      assert grafanas[i := grafanas[i]] == grafanas;
      if f(i, NewClient) != NoFault || f(i, GetDashboard) != NoFault {
        return false;
      }
      var folder := if uid in grafanas[i].dashes then grafanas[i].dashes[uid].folder else 0;
      if f(i, DeleteDashboard) != Lost {
        grafanas := grafanas[i := DropDash(grafanas[i], uid)];
      }
      if f(i, DeleteDashboard) != NoFault {
        return false;
      }
      FolderDeletionIsSafe(grafanas[i], folder, i, f);
      if folder > 0 {
        var emptied := DeleteFolderIfEmpty(i, folder, f);
        if !emptied {
          return false;
        }
      }
      ok := Forget(i, key, f);
    }

    method Forget(i: nat, key: Key, f: Faults) returns (ok: bool)
      requires i < |grafanas| && AllSplittable(grafanas[i].status)
      modifies this`grafanas
      ensures grafanas == old(grafanas)[i := Forgotten(old(grafanas)[i], i, key, f).g]
      ensures ok == Forgotten(old(grafanas)[i], i, key, f).ok
    {
      if !grafanas[i].external && f(i, ReconcilePlugins) != NoFault {
        return false;
      }
      var status := Remove(grafanas[i].status, key);
      if f(i, SaveInstance) != Lost {
        grafanas := grafanas[i := grafanas[i].(status := status)];
      }
      return f(i, SaveInstance) == NoFault;
    }

    method GetFolderID(i: nat, title: string) returns (id: int)
      requires i < |grafanas|
      ensures id == FolderNamed(grafanas[i].folders, title)
    {
      var folders := grafanas[i].folders;
      for n := 0 to |folders|
        invariant FolderNamed(folders[n..], title) == FolderNamed(folders, title)
      {
        assert folders[n..][1..] == folders[n + 1..];
        if folders[n].title == title {
          return folders[n].id;
        }
      }
      return 0;
    }

    method GetOrCreateFolder(i: nat, title: string, f: Faults, newId: int) returns (id: Option<int>)
      requires i < |grafanas|
      modifies this`grafanas
      ensures grafanas == old(grafanas)[i := FolderFor(old(grafanas)[i], title, i, f, newId).g]
      ensures id == FolderFor(old(grafanas)[i], title, i, f, newId).id
    {
      if title == "" {
        return Some(0);
      }
      if f(i, ListFolders) != NoFault {
        return None;
      }
      var folderId := GetFolderID(i, title);
      if folderId != 0 {
        return Some(folderId);
      }
      if f(i, NewFolder) != Lost {
        grafanas := grafanas[i := grafanas[i].(folders := grafanas[i].folders + [Folder(newId, title)])];
      }
      return if f(i, NewFolder) == NoFault then Some(newId) else None;
    }

    /** `key` is the key of the resource; its saved form is `dashboards[key]`. */
    method OnDashboardCreated(i: nat, obj: DashboardObject, f: Faults, newId: int, lib: Library) returns (ok: bool)
      requires i < |grafanas| && obj.cr.key in dashboards
      modifies this, obj
      ensures var key := old(obj.cr.key);
              var saved := old(dashboards)[key];
              var c := CreatedOn(old(grafanas)[i], old(obj.cr), saved.json, saved.hash, i, f, newId, lib);
              && grafanas == old(grafanas)[i := c.g] && obj.cr == c.cr && ok == c.ok
              && dashboards == old(dashboards)[key := saved.(hash := c.hash)]
    {
      var key := obj.cr.key;
      ghost var saved := dashboards[key];
      assert dashboards[key := saved.(hash := saved.hash)] == dashboards;
      assert grafanas[i := grafanas[i]] == grafanas;
      var fetched := Fetched(obj.cr);
      if fetched.Err? {
        return false;
      }
      var resolved := ResolveDatasources(obj.cr.mappings, fetched.value);
      if resolved.Err? {
        return false;
      }
      if grafanas[i].external && obj.cr.plugins {
        return false;
      }
      obj.cr := obj.cr.(json := resolved.value);
      if f(i, NewClient) != NoFault || f(i, ListDashboards) != NoFault {
        return false;
      }
      var exists_ := obj.cr.uid in grafanas[i].dashes;
      if exists_ && lib.sha(obj.cr.json) == obj.cr.hash {
        return true;
      }
      if !lib.parses(obj.cr.json) {
        return false;
      }
      ok := WriteDashboard(i, obj, f, newId, lib);
    }

    method WriteDashboard(i: nat, obj: DashboardObject, f: Faults, newId: int, lib: Library) returns (ok: bool)
      requires i < |grafanas| && obj.cr.key in dashboards
      modifies this, obj
      ensures var key := old(obj.cr.key);
              var saved := old(dashboards)[key];
              var c := Written(old(grafanas)[i], old(obj.cr), saved.json, saved.hash, i, f, newId, lib);
              && grafanas == old(grafanas)[i := c.g] && obj.cr == c.cr && ok == c.ok
              && dashboards == old(dashboards)[key := saved.(hash := c.hash)]
    {
      ghost var saved := dashboards[obj.cr.key];
      assert dashboards[obj.cr.key := saved.(hash := saved.hash)] == dashboards;
      var folderId := GetOrCreateFolder(i, obj.cr.folderTitle, f, newId);
      if folderId.None? {
        return false;
      }
      if f(i, NewDashboard) != Lost {
        var dash := Dash(folderId.value, obj.cr.json);
        grafanas := grafanas[i := grafanas[i].(dashes := grafanas[i].dashes[obj.cr.uid := dash])];
      }
      if f(i, NewDashboard) != NoFault {
        return false;
      }
      ok := Record(i, obj, f, lib);
    }

    method Record(i: nat, obj: DashboardObject, f: Faults, lib: Library) returns (ok: bool)
      requires i < |grafanas| && obj.cr.key in dashboards
      modifies this, obj
      ensures var key := old(obj.cr.key);
              var saved := old(dashboards)[key];
              var c := Recorded(old(grafanas)[i], old(obj.cr), saved.json, saved.hash, i, f, lib);
              && grafanas == old(grafanas)[i := c.g] && obj.cr == c.cr && ok == c.ok
              && dashboards == old(dashboards)[key := saved.(hash := c.hash)]
    {
      ghost var saved := dashboards[obj.cr.key];
      assert dashboards[obj.cr.key := saved.(hash := saved.hash)] == dashboards;
      var status := Add(grafanas[i].status, obj.cr.key, obj.cr.uid);
      if f(i, SaveInstance) != Lost {
        grafanas := grafanas[i := grafanas[i].(status := status)];
      }
      if f(i, SaveInstance) != NoFault {
        return false;
      }
      ok := UpdateStatus(i, obj, f, lib);
    }

    method UpdateStatus(i: nat, obj: DashboardObject, f: Faults, lib: Library) returns (ok: bool)
      requires obj.cr.key in dashboards
      modifies this`dashboards, obj
      ensures var key := old(obj.cr.key);
              var marked := old(obj.cr).(hash := lib.sha(old(obj.cr).json));
              && ok == (f(i, SaveResource) == NoFault)
              && obj.cr == (if ok && lib.refresh then marked.(json := old(dashboards)[key].json) else marked)
              && dashboards == if f(i, SaveResource) == Lost then old(dashboards)
                               else old(dashboards)[key := old(dashboards)[key].(hash := marked.hash)]
    {
      var key := obj.cr.key;
      obj.cr := obj.cr.(hash := lib.sha(obj.cr.json));
      if f(i, SaveResource) != Lost {
        dashboards := dashboards[key := dashboards[key].(hash := obj.cr.hash)];
      }
      ok := f(i, SaveResource) == NoFault;
      if ok && lib.refresh {
        obj.cr := obj.cr.(json := dashboards[key].json);
      }
    }

    /** Reconcile of one resource, found or gone. */
    method Reconcile(key: Key, f: Faults, newIds: nat -> int, lib: Library) returns (ok: bool)
      requires key in dashboards ==> dashboards[key].key == key && MatchingOk(grafanas, dashboards[key])
      requires forall g | g in grafanas :: AllSplittable(g.status)
      modifies this
      ensures key !in old(dashboards) ==> (grafanas, ok) == Deleted(old(grafanas), key, f) && dashboards == old(dashboards)
      ensures key in old(dashboards) ==>
                var cr := old(dashboards)[key];
                var r := Imported(old(grafanas), cr, f, newIds, lib);
                grafanas == r.gs && ok == r.ok && dashboards == old(dashboards)[key := cr.(hash := r.hash)]
    {
      if key !in dashboards {
        ok := OnDashboardDeleted(key, f);
        return;
      }
      var saved := dashboards[key];
      assert dashboards[key := saved.(hash := saved.hash)] == dashboards;
      if f(0, ListInstances) != NoFault {
        return false;
      }
      var obj := new DashboardObject(saved);
      ok := ReconcileMatching(obj, f, newIds, lib);
    }

    /** The loop over the matching instances, for an object that was just read. */
    method ReconcileMatching(obj: DashboardObject, f: Faults, newIds: nat -> int, lib: Library) returns (ok: bool)
      requires obj.cr.key in dashboards && dashboards[obj.cr.key] == obj.cr && MatchingOk(grafanas, obj.cr)
      modifies this, obj
      ensures var cr := old(obj.cr);
              var r := ImportFrom(Import(old(grafanas), cr, cr.hash, true), cr.matching, 0, cr.json, f, newIds, lib);
              && grafanas == r.gs && ok == r.ok && dashboards == old(dashboards)[cr.key := cr.(hash := r.hash)]
    {
      var saved, key := obj.cr, obj.cr.key;
      assert dashboards[key := saved.(hash := saved.hash)] == dashboards;
      ghost var total := ImportFrom(Import(grafanas, saved, saved.hash, true), saved.matching, 0, saved.json, f, newIds, lib);
      ok := true;
      for n := 0 to |saved.matching|
        invariant |grafanas| == |old(grafanas)|
        invariant key in dashboards && SameResource(saved, obj.cr)
        invariant dashboards == old(dashboards)[key := saved.(hash := dashboards[key].hash)]
        invariant ImportFrom(Import(grafanas, obj.cr, dashboards[key].hash, ok), saved.matching, n, saved.json, f,
                             newIds, lib) == total
      {
        var i := saved.matching[n];
        RoundKeepsRest(Import(grafanas, obj.cr, dashboards[key].hash, ok), i, saved.json, f, newIds(i), lib);
        ok := ReconcileOn(i, obj, ok, f, newIds(i), lib);
      }
    }

    /** One round of the loop over the matching instances; `success` is the flag so far. */
    method ReconcileOn(i: nat, obj: DashboardObject, success: bool, f: Faults, newId: int, lib: Library)
      returns (ok: bool)
      requires i < |grafanas| && obj.cr.key in dashboards
      modifies this, obj
      ensures var key := old(obj.cr.key);
              var saved := old(dashboards)[key];
              var r := ImportOne(Import(old(grafanas), old(obj.cr), saved.hash, success), i, saved.json, f, newId, lib);
              && grafanas == r.gs && obj.cr == r.cr && ok == r.ok
              && dashboards == old(dashboards)[key := saved.(hash := r.hash)]
    {
      ghost var saved := dashboards[obj.cr.key];
      assert dashboards[obj.cr.key := saved.(hash := saved.hash)] == dashboards;
      if grafanas[i].ns != obj.cr.key.ns && !obj.cr.allowCross {
        return success;
      }
      if !grafanas[i].ready {
        return false;
      }
      ok := success;
      if !grafanas[i].external && f(i, ReconcilePlugins) != NoFault {
        ok := false;
      }
      var created := OnDashboardCreated(i, obj, f, newId, lib);
      ok := ok && created;
    }
  }
}
