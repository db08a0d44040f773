/** When an instance lists a dashboard resource once, and what a deletion leaves behind when it
    does not (controllers/dashboard_controller.go, api/v1beta1/namespaced_resource.go). */
module Uniqueness {
  import opened Wrappers
  import opened Resources
  import opened Cluster
  import opened Sync
  import opened Deletion
  import opened Creation
  import opened World

  /** Every instance has at most one entry per resource. */
  ghost predicate Unique(w: World) {
    forall i | 0 <= i < |w.gs| :: UniqueKeys(w.gs[i].status)
  }

  /** The action lists a resource on instance i beside an entry of an earlier one of the same name. */
  ghost predicate Overlays(w: World, a: Action, w': World, i: nat) {
    && a.ReconcileDashboard? && a.key in w.crs && i < |w.gs| == |w'.gs|
    && w'.gs[i].status != w.gs[i].status && Found(w.gs[i].status, a.key).Some?
  }

  lemma {:induction false} KeptKeepsUnique(list: seq<string>, keys: set<Key>)
    requires UniqueKeys(list)
    ensures UniqueKeys(Kept(list, keys))
  {
    if list != [] {
      var rest, out := list[1..], Kept(list[1..], keys);
      assert forall i | 0 <= i < |rest| :: rest[i] == list[i + 1];
      KeptKeepsUnique(rest, keys);
      KeptMembers(rest, keys);
      assert forall r | r in rest :: KeyOf(r) != KeyOf(list[0]);
      assert forall i | 0 <= i < |out| :: out[i] in out;
    }
  }

  /** Adding to a list keeps it unique exactly when nothing is added or the key was not listed. */
  lemma AddedUniqueIff(list: seq<string>, key: Key, uid: string)
    requires UniqueKeys(list) && Printed(list) && NamesOk(key, uid)
    ensures UniqueKeys(Added(list, key, uid)) <==> Added(list, key, uid) == list || Found(list, key).None?
    ensures Added(list, key, uid) == list <==> Found(list, key) == Some(uid)
  {
    AddedIsUpdate(list, key, uid);
    FoundIsLookup(list, key);
    SplitUndoesPrint(key, uid);
    UniqueEntryIsFound(list, key);
    if Found(list, key).Some? {
      FoundMember(list, key);
    }
  }

  lemma ImportUniqueIff(w: World, key: Key, f: Faults, newIds: nat -> int, lib: Library)
    requires Inv(w) && Unique(w) && key in w.crs && Enabled(w, ReconcileDashboard(key, f, newIds))
    ensures var a := ReconcileDashboard(key, f, newIds);
            var w' := Step(w, a, lib);
            |w'.gs| == |w.gs| && (Unique(w') <==> forall i: nat :: !Overlays(w, a, w', i))
  {
    var a := ReconcileDashboard(key, f, newIds);
    var w' := Step(w, a, lib);
    ImportKeepsInv(w, key, f, newIds, lib);
    forall i: nat | i < |w.gs|
      ensures UniqueKeys(w'.gs[i].status) <==> !Overlays(w, a, w', i)
    {
      assert Grown(w.gs[i], w'.gs[i], w.crs[key]);
      AddedUniqueIff(w.gs[i].status, key, w.crs[key].uid);
    }
  }

  /** Every other action keeps the lists unique. */
  lemma OthersKeepUnique(w: World, a: Action, lib: Library)
    requires Inv(w) && Unique(w) && Enabled(w, a) && !(a.ReconcileDashboard? && a.key in w.crs)
    ensures Unique(Step(w, a, lib))
  {
    match a
    case ReconcileDashboard(key, f, _) =>
      DeletionIsSafe(w.gs, key, f);
      forall i | 0 <= i < |w.gs| ensures UniqueKeys(Deleted(w.gs, key, f).0[i].status) {
        RemovedKeepsUnique(w.gs[i].status, key);
      }
    case SyncDashboards(order, f) =>
      CycleIsSafe(w.gs, w.crs.Keys, order, f);
      forall i | 0 <= i < |w.gs| ensures UniqueKeys(SyncCycle(w.gs, w.crs.Keys, order, f).gs[i].status) {
        KeptKeepsUnique(w.gs[i].status, w.crs.Keys);
      }
    case DeleteOutOfBand(_, _) =>
    case SetReady(_, _) =>
    case EditResource(_, _, _, _, _) =>
    case CreateResource(_) =>
    case DeleteResource(_) =>
  }

  lemma StepUniqueIff(w: World, a: Action, lib: Library)
    requires Inv(w) && Unique(w) && Enabled(w, a)
    ensures Unique(Step(w, a, lib)) <==> forall i: nat :: !Overlays(w, a, Step(w, a, lib), i)
  {
    if a.ReconcileDashboard? && a.key in w.crs {
      ImportUniqueIff(w, a.key, a.f, a.newIds, lib);
    } else {
      OthersKeepUnique(w, a, lib);
    }
  }

  /** The m-th action of a run overlays somewhere. */
  ghost predicate OverlaysAt(ws: seq<World>, actions: seq<Action>, m: nat)
    requires m < |actions| < |ws|
  {
    OverlaysSomewhere(ws[m], actions[m], ws[m + 1])
  }

  ghost predicate OverlaysSomewhere(w: World, a: Action, w': World) {
    exists i: nat :: Overlays(w, a, w', i)
  }

  /** MAIN: over every run, the lists stay unique exactly as long as no import lists a resource beside
      an entry of an earlier one of the same name. */
  lemma {:induction false} RunUniqueIff(ws: seq<World>, actions: seq<Action>, lib: Library, n: nat)
    requires IsRun(ws, actions, lib) && Inv(ws[0]) && Unique(ws[0]) && n < |ws|
    ensures (forall m: nat | m <= n :: Unique(ws[m])) <==> forall m: nat | m < n :: !OverlaysAt(ws, actions, m)
  {
    if n > 0 {
      var k: nat := n - 1;
      RunUniqueIff(ws, actions, lib, k);
      RunKeepsInv(ws, actions, lib, k);
      if Unique(ws[k]) {
        StepUniqueIff(ws[k], actions[k], lib);
        assert Unique(ws[k + 1]) <==> !OverlaysAt(ws, actions, k);
      }
    }
  }

  // When an import overlays

  /** MAIN: before a fault-free import one can tell: the lists stay unique exactly if no instance that
      receives the dashboard lists an earlier resource of the same name. */
  lemma ImportKeepsUniqueIff(w: World, key: Key, newIds: nat -> int, lib: Library, text: string)
    requires Inv(w) && Unique(w) && key in w.crs && Enabled(w, ReconcileDashboard(key, NoFaults(), newIds))
    requires Delivers(w.crs[key], text)
    ensures var cr := w.crs[key];
            Unique(Step(w, ReconcileDashboard(key, NoFaults(), newIds), lib)) <==>
            forall m: nat | m < |cr.matching| && Receives(w.gs, cr, lib, text, m) ::
              Found(w.gs[cr.matching[m]].status, key) in {None, Some(cr.uid)}
  {
    var cr := w.crs[key];
    var w' := Step(w, ReconcileDashboard(key, NoFaults(), newIds), lib);
    WriteSet(w.gs, cr, newIds, lib, text);
    forall m: nat | m < |cr.matching|
      ensures UniqueKeys(w'.gs[cr.matching[m]].status) <==>
              (Receives(w.gs, cr, lib, text, m) ==> Found(w.gs[cr.matching[m]].status, key) in {None, Some(cr.uid)})
    {
      assert AfterImport(w.gs, w'.gs, cr, lib, text, m);
      AddedUniqueIff(w.gs[cr.matching[m]].status, key, cr.uid);
    }
    forall i: nat | i < |w.gs| && i !in cr.matching ensures UniqueKeys(w'.gs[i].status) {
    }
  }

  /** No list holds an entry of an earlier resource with the name of a present one. */
  ghost predicate OnlyCurrent(w: World) {
    forall i, key | 0 <= i < |w.gs| && key in w.crs :: Found(w.gs[i].status, key) in {None, Some(w.crs[key].uid)}
  }

  /** Resources are re-created only after the deletion of their predecessor is through everywhere. */
  ghost predicate PatientCreates(ws: seq<World>, actions: seq<Action>, n: nat)
    requires n <= |actions| <= |ws|
  {
    forall m: nat, i: nat | m < n && actions[m].CreateResource? && i < |ws[m].gs| ::
      Found(ws[m].gs[i].status, actions[m].cr.key) == None
  }

  lemma ListKeepsCurrent(list: seq<string>, list': seq<string>, key: Key, uid: string, other: Key, otherUid: string)
    requires NamesOk(key, uid) && Found(list, other) in {None, Some(otherUid)} && (key == other ==> uid == otherUid)
    requires list' == list || list' == Added(list, key, uid)
    ensures Found(list', other) in {None, Some(otherUid)}
  {
    FoundInFront(list, key, uid, other);
  }

  lemma ImportKeepsCurrent(w: World, a: Action, lib: Library)
    requires Inv(w) && OnlyCurrent(w) && Enabled(w, a) && a.ReconcileDashboard? && a.key in w.crs
    ensures OnlyCurrent(Step(w, a, lib))
  {
    var w' := Step(w, a, lib);
    ImportKeepsInv(w, a.key, a.f, a.newIds, lib);
    forall i, k | 0 <= i < |w.gs| && k in w.crs ensures Found(w'.gs[i].status, k) in {None, Some(w.crs[k].uid)} {
      assert Grown(w.gs[i], w'.gs[i], w.crs[a.key]);
      ListKeepsCurrent(w.gs[i].status, w'.gs[i].status, a.key, w.crs[a.key].uid, k, w.crs[k].uid);
    }
  }

  lemma StepKeepsCurrent(w: World, a: Action, lib: Library)
    requires Inv(w) && OnlyCurrent(w) && Enabled(w, a)
    requires a.CreateResource? ==> forall i | 0 <= i < |w.gs| :: Found(w.gs[i].status, a.cr.key) == None
    ensures OnlyCurrent(Step(w, a, lib))
  {
    var w' := Step(w, a, lib);
    match a
    case ReconcileDashboard(key, f, newIds) =>
      if key in w.crs {
        ImportKeepsCurrent(w, a, lib);
      } else {
        DeletionIsSafe(w.gs, key, f);
        forall i, k | 0 <= i < |w.gs| && k in w.crs
          ensures Found(Removed(w.gs[i].status, key), k) in {None, Some(w.crs[k].uid)}
        {
          FoundInRemoved(w.gs[i].status, key, k);
        }
      }
    case SyncDashboards(order, f) =>
      CycleIsSafe(w.gs, w.crs.Keys, order, f);
      forall i, k | 0 <= i < |w.gs| && k in w.crs
        ensures Found(Kept(w.gs[i].status, w.crs.Keys), k) in {None, Some(w.crs[k].uid)}
      {
        FoundInKept(w.gs[i].status, w.crs.Keys, k);
      }
    case DeleteOutOfBand(_, _) =>
    case SetReady(_, _) =>
    case EditResource(_, _, _, _, _) =>
    case CreateResource(_) =>
    case DeleteResource(_) =>
  }

  /** A world with current entries only does not overlay. */
  lemma CurrentKeepsUnique(w: World, a: Action, lib: Library)
    requires Inv(w) && Unique(w) && OnlyCurrent(w) && Enabled(w, a)
    ensures Unique(Step(w, a, lib))
  {
    StepUniqueIff(w, a, lib);
    if a.ReconcileDashboard? && a.key in w.crs {
      var w' := Step(w, a, lib);
      ImportKeepsInv(w, a.key, a.f, a.newIds, lib);
      forall i: nat ensures !Overlays(w, a, w', i) {
        if i < |w.gs| {
          assert Grown(w.gs[i], w'.gs[i], w.crs[a.key]);
          AddedUniqueIff(w.gs[i].status, a.key, w.crs[a.key].uid);
        }
      }
    }
  }

  lemma {:induction false} PatientRunsStayUnique(ws: seq<World>, actions: seq<Action>, lib: Library, n: nat)
    requires IsRun(ws, actions, lib) && n < |ws| && PatientCreates(ws, actions, n)
    requires Inv(ws[0]) && Unique(ws[0]) && OnlyCurrent(ws[0])
    ensures Inv(ws[n]) && Unique(ws[n]) && OnlyCurrent(ws[n])
  {
    if n > 0 {
      PatientRunsStayUnique(ws, actions, lib, n - 1);
      StepKeepsInv(ws[n - 1], actions[n - 1], lib);
      StepKeepsCurrent(ws[n - 1], actions[n - 1], lib);
      CurrentKeepsUnique(ws[n - 1], actions[n - 1], lib);
    }
  }

  // Deletion

  /** MAIN: where resources are re-created only after their predecessor's deletion, a deletion that
      returns without an error leaves no recorded dashboard of the resource on any server, in every
      run with calls failing anywhere before. */
  lemma DeletionLeavesNothing(ws: seq<World>, actions: seq<Action>, lib: Library, n: nat, key: Key, f: Faults,
                              i: nat, e: string)
    requires IsRun(ws, actions, lib) && n < |ws| && PatientCreates(ws, actions, n)
    requires Inv(ws[0]) && Unique(ws[0]) && OnlyCurrent(ws[0])
    requires Deleted(ws[n].gs, key, f).1 && i < |ws[n].gs| && e in ws[n].gs[i].status && KeyOf(e) == key
    ensures UidOf(e) !in Deleted(ws[n].gs, key, f).0[i].dashes
  {
    PatientRunsStayUnique(ws, actions, lib, n);
    NoRecordedUidSurvives(ws[n].gs, key, f, i);
    UniqueEntryIsFound(ws[n].gs[i].status, key);
  }

  /** A resource is re-created and imported where its predecessor is still listed. */
  lemma ImportedBesidePredecessor(w: World, cr: Dashboard, m: nat, old_: string, newIds: nat -> int, lib: Library,
                                  text: string) returns (created: World, imported: World)
    requires Inv(w) && Enabled(w, CreateResource(cr)) && Enabled(w, ReconcileDashboard(cr.key, NoFaults(), newIds))
    requires Delivers(cr, text) && m < |cr.matching| && Receives(w.gs, cr, lib, text, m)
    requires Found(w.gs[cr.matching[m]].status, cr.key) == Some(old_) && old_ in w.gs[cr.matching[m]].dashes
    ensures created == Step(w, CreateResource(cr), lib) && Inv(created)
    ensures Enabled(created, ReconcileDashboard(cr.key, NoFaults(), newIds))
    ensures imported == Step(created, ReconcileDashboard(cr.key, NoFaults(), newIds), lib)
    ensures Inv(imported) && |imported.gs| == |w.gs| && imported.crs.Keys == created.crs.Keys
    ensures var g := imported.gs[cr.matching[m]];
            old_ != cr.uid && old_ in g.dashes && Found(g.status, cr.key) == Some(cr.uid) && !UniqueKeys(g.status)
  {
    var g := w.gs[cr.matching[m]];
    created := AfterCreate(w, cr, newIds, lib);
    ImportKeepsInv(created, cr.key, NoFaults(), newIds, lib);
    imported := Step(created, ReconcileDashboard(cr.key, NoFaults(), newIds), lib);
    WriteSet(w.gs, cr, newIds, lib, text);
    assert AfterImport(w.gs, imported.gs, cr, lib, text, m);
    BesidePredecessor(g.status, cr.key, cr.uid, old_);
  }

  lemma AfterCreate(w: World, cr: Dashboard, newIds: nat -> int, lib: Library) returns (created: World)
    requires Inv(w) && Enabled(w, CreateResource(cr)) && Enabled(w, ReconcileDashboard(cr.key, NoFaults(), newIds))
    ensures created == Step(w, CreateResource(cr), lib) == World(w.gs, w.crs[cr.key := cr]) && Inv(created)
    ensures Enabled(created, ReconcileDashboard(cr.key, NoFaults(), newIds))
  {
    created := Step(w, CreateResource(cr), lib);
    StepKeepsInv(w, CreateResource(cr), lib);
  }

  lemma BesidePredecessor(list: seq<string>, key: Key, uid: string, old_: string)
    requires NamesOk(key, uid) && Found(list, key) == Some(old_) && forall e | e in list :: UidOf(e) != uid
    ensures old_ != uid && Found(Added(list, key, uid), key) == Some(uid) && !UniqueKeys(Added(list, key, uid))
  {
    FoundMember(list, key);
    SplitUndoesPrint(key, uid);
    FoundInFront(list, key, uid, key);
    var p := Print(key, uid);
    var e :| e in list && KeyOf(e) == key;
    var j :| 0 <= j < |list| && list[j] == e;
    assert ([p] + list)[0] == p && ([p] + list)[j + 1] == e;
  }

  /** MAIN: otherwise dashboards are orphaned, in every cluster. A resource is re-created while a ready
      instance still lists its predecessor; the new one is imported there and deleted, with no call
      failing. Then the predecessor's dashboard is still on the server, and no list knows of it. */
  lemma PredecessorIsOrphaned(w: World, cr: Dashboard, m: nat, old_: string, newIds: nat -> int, lib: Library,
                              text: string) returns (created: World, imported: World, deleted: World)
    requires Inv(w) && Enabled(w, CreateResource(cr)) && Enabled(w, ReconcileDashboard(cr.key, NoFaults(), newIds))
    requires Delivers(cr, text) && m < |cr.matching| && Receives(w.gs, cr, lib, text, m)
    requires Found(w.gs[cr.matching[m]].status, cr.key) == Some(old_) && old_ in w.gs[cr.matching[m]].dashes
    ensures created == Step(w, CreateResource(cr), lib) && Inv(created)
    ensures Enabled(created, ReconcileDashboard(cr.key, NoFaults(), newIds))
    ensures imported == Step(created, ReconcileDashboard(cr.key, NoFaults(), newIds), lib)
    ensures Inv(imported) && deleted == Step(imported, DeleteResource(cr.key), lib)
    ensures var (hs, ok) := Deleted(deleted.gs, cr.key, NoFaults());
            && ok && |hs| == |w.gs| && old_ in hs[cr.matching[m]].dashes
            && forall i | 0 <= i < |w.gs| :: Found(hs[i].status, cr.key) == None
  {
    created, imported := ImportedBesidePredecessor(w, cr, m, old_, newIds, lib, text);
    deleted := Step(imported, DeleteResource(cr.key), lib);
    DeletionSucceeds(imported.gs, cr.key);
    DeletionIsComplete(imported.gs, cr.key, NoFaults());
  }
}
