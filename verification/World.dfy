/** All actors together: dashboard reconciles, deletions, startup syncs, users. Runs are
    sequences of actions; inside an action any call may fail or be the last one. */
module World {
  import opened Wrappers
  import opened Resources
  import opened Inputs
  import opened Cluster
  import opened Sync
  import opened Deletion
  import opened Creation

  datatype World = World(gs: seq<Grafana>, crs: map<Key, Dashboard>)

  datatype Action =
    | ReconcileDashboard(key: Key, f: Faults, newIds: nat -> int)
    | SyncDashboards(order: seq<nat>, f: Faults)
    | EditResource(key: Key, json: string, others: seq<Result<string>>, mappings: seq<Mapping>, title: string)
    | CreateResource(cr: Dashboard)
    | DeleteResource(key: Key)
    | DeleteOutOfBand(i: nat, uid: string)
    | SetReady(i: nat, ready: bool)

  predicate NamesOk(key: Key, uid: string) {
    SlashFree(key.ns) && SlashFree(key.name) && SlashFree(uid)
  }

  predicate WellNamed(gs: seq<Grafana>, key: Key, cr: Dashboard) {
    cr.key == key && NamesOk(key, cr.uid) && MatchingOk(gs, cr)
  }

  /** Kubernetes does not hand out a uid twice, so no list holds a new one. */
  predicate FreshUid(gs: seq<Grafana>, uid: string) {
    forall g, e | g in gs && e in g.status :: UidOf(e) != uid
  }

  ghost predicate Enabled(w: World, a: Action) {
    match a
    case ReconcileDashboard(key, f, newIds) => forall i: nat | i < |w.gs| :: FreshId(w.gs[i], newIds(i))
    case SyncDashboards(order, f) => VisitsEach(order, |w.gs|)
    case EditResource(key, _, _, _, _) => key in w.crs
    case CreateResource(cr) =>
      cr.key !in w.crs && cr.hash == "" && WellNamed(w.gs, cr.key, cr) && FreshUid(w.gs, cr.uid)
    case DeleteResource(key) => true
    case DeleteOutOfBand(i, uid) => i < |w.gs|
    case SetReady(i, ready) => i < |w.gs|
  }

  ghost predicate Matched(w: World) {
    forall key | key in w.crs :: WellNamed(w.gs, key, w.crs[key])
  }

  /** The state after one action. */
  ghost function Step(w: World, a: Action, lib: Library): World
    requires Enabled(w, a) && Matched(w)
  {
    match a
    case ReconcileDashboard(key, f, newIds) =>
      if key !in w.crs then w.(gs := Deleted(w.gs, key, f).0)
      else
        var r := Imported(w.gs, w.crs[key], f, newIds, lib);
        World(r.gs, w.crs[key := w.crs[key].(hash := r.hash)])
    case SyncDashboards(order, f) => w.(gs := SyncCycle(w.gs, w.crs.Keys, order, f).gs)
    case EditResource(key, json, others, mappings, title) =>
      w.(crs := w.crs[key := w.crs[key].(json := json, others := others, mappings := mappings, folderTitle := title)])
    case CreateResource(cr) => w.(crs := w.crs[cr.key := cr])
    case DeleteResource(key) => w.(crs := w.crs - {key})
    case DeleteOutOfBand(i, uid) => w.(gs := w.gs[i := DropDash(w.gs[i], uid)])
    case SetReady(i, ready) => w.(gs := w.gs[i := w.gs[i].(ready := ready)])
  }

  ghost predicate FoldersOk(w: World) {
    forall i | 0 <= i < |w.gs| :: FolderInv(w.gs[i])
  }

  /** All entries are printed ones, and where the uid of a resource is listed, Find returns it and
      not that of an earlier resource of the same name. */
  ghost predicate ListOk(list: seq<string>, crs: map<Key, Dashboard>) {
    && Printed(list)
    && forall key | key in crs && Print(key, crs[key].uid) in list :: Found(list, key) == Some(crs[key].uid)
  }

  ghost predicate StatusOk(w: World) {
    forall i | 0 <= i < |w.gs| :: ListOk(w.gs[i].status, w.crs)
  }

  /** A resource with one matching instance and a saved hash is listed by that instance. */
  ghost predicate HashMeansListed(w: World)
    requires Matched(w)
  {
    forall key | key in w.crs && |w.crs[key].matching| == 1 && w.crs[key].hash != "" ::
      Print(key, w.crs[key].uid) in w.gs[w.crs[key].matching[0]].status
  }

  ghost predicate Inv(w: World) {
    Matched(w) && FoldersOk(w) && StatusOk(w) && HashMeansListed(w)
  }

  // Lists

  lemma FoundInFront(list: seq<string>, key: Key, uid: string, other: Key)
    requires NamesOk(key, uid)
    ensures Found([Print(key, uid)] + list, other) == if other == key then Some(uid) else Found(list, other)
  {
    SplitUndoesPrint(key, uid);
    assert ([Print(key, uid)] + list)[1..] == list;
  }

  lemma AddedListOk(list: seq<string>, crs: map<Key, Dashboard>, key: Key)
    requires ListOk(list, crs) && key in crs && forall k | k in crs :: NamesOk(k, crs[k].uid)
    ensures ListOk(Added(list, key, crs[key].uid), crs)
  {
    var p := Print(key, crs[key].uid);
    SplitUndoesPrint(key, crs[key].uid);
    PrintIsSplittable(key, crs[key].uid);
    if p !in list {
      forall k | k in crs && Print(k, crs[k].uid) in [p] + list
        ensures Found([p] + list, k) == Some(crs[k].uid)
      {
        FoundInFront(list, key, crs[key].uid, k);
        KeyOfPrint(k, crs[k].uid);
      }
    }
  }

  lemma {:induction false} FoundInRemoved(list: seq<string>, key: Key, other: Key)
    ensures Found(Removed(list, key), other) == if other == key then None else Found(list, other)
  {
    if list != [] { FoundInRemoved(list[1..], key, other); }
  }

  lemma {:induction false} FoundInKept(list: seq<string>, keys: set<Key>, other: Key)
    ensures Found(Kept(list, keys), other) == if other in keys then Found(list, other) else None
  {
    if list != [] { FoundInKept(list[1..], keys, other); }
  }

  lemma RemovedListOk(list: seq<string>, crs: map<Key, Dashboard>, key: Key)
    requires ListOk(list, crs) && forall k | k in crs :: NamesOk(k, crs[k].uid)
    ensures ListOk(Removed(list, key), crs)
  {
    RemovedMembers(list, key);
    forall k | k in crs && Print(k, crs[k].uid) in Removed(list, key)
      ensures Found(Removed(list, key), k) == Some(crs[k].uid)
    {
      FoundInRemoved(list, key, k);
      KeyOfPrint(k, crs[k].uid);
    }
  }

  lemma KeptListOk(list: seq<string>, crs: map<Key, Dashboard>)
    requires ListOk(list, crs)
    ensures ListOk(Kept(list, crs.Keys), crs)
  {
    KeptMembers(list, crs.Keys);
    forall k | k in crs ensures Found(Kept(list, crs.Keys), k) == Found(list, k) {
      FoundInKept(list, crs.Keys, k);
    }
  }

  // Imports

  /** An instance across the rounds of an import. */
  ghost predicate Grown(g: Grafana, h: Grafana, cr: Dashboard) {
    && (h.status == g.status || h.status == Added(g.status, cr.key, cr.uid))
    && g.folders <= h.folders && (FolderInv(g) ==> FolderInv(h))
  }

  lemma GrownFurther(g: Grafana, h: Grafana, k: Grafana, cr: Dashboard)
    requires Grown(g, h, cr) && Grown(h, k, cr)
    ensures Grown(g, k, cr)
  {
  }

  ghost predicate FreshFrom(gs: seq<Grafana>, matching: seq<nat>, n: nat, newIds: nat -> int)
    requires forall m | 0 <= m < |matching| :: matching[m] < |gs|
  {
    forall m: nat | n <= m < |matching| :: FreshId(gs[matching[m]], newIds(matching[m]))
  }

  /** One round grows its instance, and saves the hash only once the instance lists the resource. */
  lemma OneRoundGrows(s: Import, cr: Dashboard, i: nat, stored: string, f: Faults, newId: int, lib: Library)
    requires i < |s.gs| && SameResource(cr, s.cr) && FreshId(s.gs[i], newId)
    ensures var s' := ImportOne(s, i, stored, f, newId, lib);
            && |s'.gs| == |s.gs| && (forall j | 0 <= j < |s.gs| && j != i :: s'.gs[j] == s.gs[j])
            && SameResource(cr, s'.cr) && (forall j | 0 <= j < |s.gs| :: Grown(s.gs[j], s'.gs[j], cr))
            && (s'.hash != s.hash ==> Lists(s'.gs[i], cr))
  {
    RoundKeepsRest(s, i, stored, f, newId, lib);
    CreatedShape(s.gs[i], s.cr, stored, s.hash, i, f, newId, lib);
    if FolderInv(s.gs[i]) {
      CreatedKeepsFolderInv(s.gs[i], s.cr, stored, s.hash, i, f, newId, lib);
    }
    assert Grown(s.gs[i], ImportOne(s, i, stored, f, newId, lib).gs[i], cr);
  }

  lemma {:induction false} ImportGrows(s: Import, cr: Dashboard, n: nat, stored: string, f: Faults,
                                       newIds: nat -> int, lib: Library)
    requires MatchingOk(s.gs, cr) && n <= |cr.matching| && SameResource(cr, s.cr)
    requires FreshFrom(s.gs, cr.matching, n, newIds)
    ensures var r := ImportFrom(s, cr.matching, n, stored, f, newIds, lib);
            && (forall j | 0 <= j < |s.gs| :: Grown(s.gs[j], r.gs[j], cr))
            && (r.hash != s.hash ==> exists m: nat :: m < |cr.matching| && Lists(r.gs[cr.matching[m]], cr))
    decreases |cr.matching| - n
  {
    if n < |cr.matching| {
      var i := cr.matching[n];
      var s' := ImportOne(s, i, stored, f, newIds(i), lib);
      OneRoundGrows(s, cr, i, stored, f, newIds(i), lib);
      ImportGrows(s', cr, n + 1, stored, f, newIds, lib);
      var r := ImportFrom(s, cr.matching, n, stored, f, newIds, lib);
      forall j | 0 <= j < |s.gs| ensures Grown(s.gs[j], r.gs[j], cr) {
        GrownFurther(s.gs[j], s'.gs[j], r.gs[j], cr);
      }
      if s'.hash != s.hash {
        assert Grown(s'.gs[i], r.gs[i], cr);
        AddedKeeps(s'.gs[i].status, cr.key, cr.uid);
        assert Lists(r.gs[cr.matching[n]], cr);
      }
    }
  }

  lemma ImportKeepsInv(w: World, key: Key, f: Faults, newIds: nat -> int, lib: Library)
    requires Inv(w) && key in w.crs && Enabled(w, ReconcileDashboard(key, f, newIds))
    ensures Inv(Step(w, ReconcileDashboard(key, f, newIds), lib))
    ensures var w' := Step(w, ReconcileDashboard(key, f, newIds), lib);
            |w'.gs| == |w.gs| && forall i | 0 <= i < |w.gs| :: Grown(w.gs[i], w'.gs[i], w.crs[key])
  {
    var cr := w.crs[key];
    var r := Imported(w.gs, cr, f, newIds, lib);
    ImportGrows(Import(w.gs, cr, cr.hash, true), cr, 0, cr.json, f, newIds, lib);
    assert forall j | 0 <= j < |w.gs| :: Grown(w.gs[j], w.gs[j], cr);
    GrownKeepsInv(w, key, r.gs, r.hash);
  }

  lemma GrownStatusOk(w: World, key: Key, hs: seq<Grafana>)
    requires Inv(w) && key in w.crs && |hs| == |w.gs|
    requires forall j | 0 <= j < |w.gs| :: Grown(w.gs[j], hs[j], w.crs[key])
    ensures forall j | 0 <= j < |w.gs| :: FolderInv(hs[j]) && ListOk(hs[j].status, w.crs)
  {
    forall j | 0 <= j < |w.gs| ensures FolderInv(hs[j]) && ListOk(hs[j].status, w.crs) {
      assert Grown(w.gs[j], hs[j], w.crs[key]);
      AddedListOk(w.gs[j].status, w.crs, key);
    }
  }

  lemma HashChangeKeepsListOk(list: seq<string>, crs: map<Key, Dashboard>, key: Key, hash: string)
    requires ListOk(list, crs) && key in crs
    ensures ListOk(list, crs[key := crs[key].(hash := hash)])
  {
    var crs' := crs[key := crs[key].(hash := hash)];
    assert forall k | k in crs' :: crs'[k].uid == crs[k].uid;
  }

  /** Grown instances keep the invariant if a new hash is saved for a listed resource only. */
  lemma GrownKeepsInv(w: World, key: Key, hs: seq<Grafana>, hash: string)
    requires Inv(w) && key in w.crs && |hs| == |w.gs|
    requires forall j | 0 <= j < |w.gs| :: Grown(w.gs[j], hs[j], w.crs[key])
    requires var cr := w.crs[key];
             hash != cr.hash ==> exists m: nat :: m < |cr.matching| && Lists(hs[cr.matching[m]], cr)
    ensures Inv(World(hs, w.crs[key := w.crs[key].(hash := hash)]))
  {
    var cr := w.crs[key];
    var w' := World(hs, w.crs[key := cr.(hash := hash)]);
    GrownStatusOk(w, key, hs);
    forall j | 0 <= j < |w.gs| ensures ListOk(hs[j].status, w'.crs) {
      HashChangeKeepsListOk(hs[j].status, w.crs, key, hash);
    }
    forall k | k in w'.crs && |w'.crs[k].matching| == 1 && w'.crs[k].hash != ""
      ensures Print(k, w'.crs[k].uid) in w'.gs[w'.crs[k].matching[0]].status
    {
      var j := w'.crs[k].matching[0];
      assert Grown(w.gs[j], hs[j], cr);
      AddedKeeps(w.gs[j].status, key, cr.uid);
      if k == key && hash != cr.hash {
        var m: nat :| m < |cr.matching| && Lists(hs[cr.matching[m]], cr);
        assert m == 0;
      } else {
        assert Print(k, w.crs[k].uid) in w.gs[j].status;
      }
    }
  }

  // Deletions and syncs

  lemma DeletionKeepsInv(w: World, key: Key, f: Faults)
    requires Inv(w) && key !in w.crs
    ensures var w' := w.(gs := Deleted(w.gs, key, f).0); |w'.gs| == |w.gs| && Inv(w')
  {
    var hs := Deleted(w.gs, key, f).0;
    DeletionIsSafe(w.gs, key, f);
    forall i | 0 <= i < |w.gs|
      ensures FolderInv(hs[i]) && ListOk(hs[i].status, w.crs)
      ensures forall e | e in w.gs[i].status && KeyOf(e) != key :: e in hs[i].status
    {
      DeletionKeepsFolderInv(w.gs[i], Outcome(hs[i], Deleted(w.gs, key, f).1), key);
      RemovedListOk(w.gs[i].status, w.crs, key);
      RemovedMembers(w.gs[i].status, key);
    }
    forall k | k in w.crs && |w.crs[k].matching| == 1 && w.crs[k].hash != ""
      ensures Print(k, w.crs[k].uid) in hs[w.crs[k].matching[0]].status
    {
      KeyOfPrint(k, w.crs[k].uid);
    }
  }

  lemma FewerDashesKeepFolderInv(g: Grafana, h: Grafana)
    requires FolderInv(g) && h.folders == g.folders
    requires forall u | u in h.dashes :: u in g.dashes && h.dashes[u] == g.dashes[u]
    ensures FolderInv(h)
  {
  }

  lemma SyncKeepsInv(w: World, order: seq<nat>, f: Faults)
    requires Inv(w) && VisitsEach(order, |w.gs|)
    ensures var w' := w.(gs := SyncCycle(w.gs, w.crs.Keys, order, f).gs); |w'.gs| == |w.gs| && Inv(w')
    ensures var w' := w.(gs := SyncCycle(w.gs, w.crs.Keys, order, f).gs);
            forall i | 0 <= i < |w.gs| :: w'.gs[i].folders == w.gs[i].folders
  {
    var hs := SyncCycle(w.gs, w.crs.Keys, order, f).gs;
    CycleIsSafe(w.gs, w.crs.Keys, order, f);
    forall i | 0 <= i < |w.gs|
      ensures FolderInv(hs[i]) && ListOk(hs[i].status, w.crs)
      ensures forall e | e in w.gs[i].status && KeyOf(e) in w.crs :: e in hs[i].status
    {
      assert InstanceShape(w.gs[i], hs[i], w.crs.Keys);
      FewerDashesKeepFolderInv(w.gs[i], hs[i]);
      KeptListOk(w.gs[i].status, w.crs);
      KeptMembers(w.gs[i].status, w.crs.Keys);
    }
    forall k | k in w.crs && |w.crs[k].matching| == 1 && w.crs[k].hash != ""
      ensures Print(k, w.crs[k].uid) in hs[w.crs[k].matching[0]].status
    {
      KeyOfPrint(k, w.crs[k].uid);
    }
  }

  /** A new uid is in no list yet. */
  lemma CreateKeepsInv(w: World, cr: Dashboard, lib: Library)
    requires Inv(w) && Enabled(w, CreateResource(cr))
    ensures Inv(Step(w, CreateResource(cr), lib))
  {
    var w' := Step(w, CreateResource(cr), lib);
    SplitUndoesPrint(cr.key, cr.uid);
    forall i | 0 <= i < |w.gs| ensures ListOk(w'.gs[i].status, w'.crs) {
      assert w.gs[i] in w.gs && Print(cr.key, cr.uid) !in w.gs[i].status;
    }
  }

  lemma EditKeepsInv(w: World, a: Action, lib: Library)
    requires Inv(w) && Enabled(w, a) && a.EditResource?
    ensures Inv(Step(w, a, lib))
  {
    var w' := Step(w, a, lib);
    assert forall k | k in w'.crs :: w'.crs[k].uid == w.crs[k].uid;
    assert forall i | 0 <= i < |w.gs| :: ListOk(w.gs[i].status, w'.crs);
  }

  /** Every action keeps the invariant. */
  lemma StepKeepsInv(w: World, a: Action, lib: Library)
    requires Inv(w) && Enabled(w, a)
    ensures Inv(Step(w, a, lib)) && |Step(w, a, lib).gs| == |w.gs|
  {
    match a
    case ReconcileDashboard(key, f, newIds) =>
      if key in w.crs { ImportKeepsInv(w, key, f, newIds, lib); } else { DeletionKeepsInv(w, key, f); }
    case SyncDashboards(order, f) => SyncKeepsInv(w, order, f);
    case DeleteOutOfBand(i, uid) => FewerDashesKeepFolderInv(w.gs[i], DropDash(w.gs[i], uid));
    case SetReady(i, ready) => FewerDashesKeepFolderInv(w.gs[i], w.gs[i].(ready := ready));
    case EditResource(_, _, _, _, _) => EditKeepsInv(w, a, lib);
    case CreateResource(cr) => CreateKeepsInv(w, cr, lib);
    case DeleteResource(_) =>
  }

  // Runs

  /** Every state a run goes through, one more than its actions. */
  ghost predicate IsRun(ws: seq<World>, actions: seq<Action>, lib: Library) {
    |ws| == |actions| + 1 && forall n | 0 <= n < |actions| ::
      Matched(ws[n]) && Enabled(ws[n], actions[n]) && ws[n + 1] == Step(ws[n], actions[n], lib)
  }

  lemma {:induction false} RunKeepsInv(ws: seq<World>, actions: seq<Action>, lib: Library, n: nat)
    requires IsRun(ws, actions, lib) && Inv(ws[0]) && n < |ws|
    ensures Inv(ws[n]) && |ws[n].gs| == |ws[0].gs|
  {
    if n > 0 {
      RunKeepsInv(ws, actions, lib, n - 1);
      StepKeepsInv(ws[n - 1], actions[n - 1], lib);
    }
  }

  /** A reconcile would skip the instance: the dashboard exists there and seems unchanged. */
  predicate Skips(g: Grafana, cr: Dashboard, text: string, lib: Library) {
    cr.uid in g.dashes && lib.sha(text) == cr.hash
  }

  /** MAIN: in every state of every run, with calls failing or cut off anywhere, a resource with
      one matching instance that would be skipped there is listed there, and Find returns its uid,
      so that its dashboard will be found again when the resource is deleted. */
  lemma SkippedIsRecorded(ws: seq<World>, actions: seq<Action>, lib: Library, n: nat, key: Key, text: string)
    requires IsRun(ws, actions, lib) && Inv(ws[0]) && n < |ws|
    requires lib.sha(text) != ""
    requires key in ws[n].crs && |ws[n].crs[key].matching| == 1
    ensures Matched(ws[n])
    ensures var cr := ws[n].crs[key]; var g := ws[n].gs[cr.matching[0]];
            Skips(g, cr, text, lib) ==> Lists(g, cr) && Found(g.status, key) == Some(cr.uid)
  {
    RunKeepsInv(ws, actions, lib, n);
  }

  /** MAIN: in every state of every run folder titles and ids are unique and every dashboard is
      in the general folder or in one that exists; and a folder that an action removes has no
      dashboard left in it, nor was any dashboard but the deleted resource's own taken along. */
  lemma FoldersStaySound(ws: seq<World>, actions: seq<Action>, lib: Library, n: nat, i: nat, x: Folder)
    requires IsRun(ws, actions, lib) && Inv(ws[0]) && n < |actions|
    requires i < |ws[n].gs| && x in ws[n].gs[i].folders
    ensures FolderInv(ws[n].gs[i]) && |ws[n + 1].gs| == |ws[n].gs|
    ensures x !in ws[n + 1].gs[i].folders ==>
              && !InUse(ws[n + 1].gs[i], x.id)
              && actions[n].ReconcileDashboard?
              && Found(ws[n].gs[i].status, actions[n].key).Some?
              && ws[n + 1].gs[i].dashes
                 == ws[n].gs[i].dashes - {Found(ws[n].gs[i].status, actions[n].key).value}
  {
    RunKeepsInv(ws, actions, lib, n);
    var w, a := ws[n], actions[n];
    StepKeepsInv(w, a, lib);
    match a
    case ReconcileDashboard(key, f, newIds) =>
      if key in w.crs {
        ImportKeepsInv(w, key, f, newIds, lib);
        assert Grown(w.gs[i], Step(w, a, lib).gs[i], w.crs[key]);
        var j :| 0 <= j < |w.gs[i].folders| && w.gs[i].folders[j] == x;
        assert Step(w, a, lib).gs[i].folders[j] == x;
      } else {
        DeletionIsSafe(w.gs, key, f);
        var r := Outcome(Deleted(w.gs, key, f).0[i], Deleted(w.gs, key, f).1);
        assert DeletionShape(w.gs[i], r, key);
        if r.g.folders != w.gs[i].folders {
          OthersMembers(w.gs[i].folders, w.gs[i].dashes[Found(w.gs[i].status, key).value].folder);
        }
      }
    case SyncDashboards(order, f) => SyncKeepsInv(w, order, f);
    case DeleteOutOfBand(_, _) =>
    case SetReady(_, _) =>
    case EditResource(_, _, _, _, _) =>
    case CreateResource(_) =>
    case DeleteResource(_) =>
  }

}
