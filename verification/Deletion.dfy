/** Removing the dashboards of a deleted resource (controllers/dashboard_controller.go,
    onDashboardDeleted and DeleteFolderIfEmpty). */
module Deletion {
  import opened Wrappers
  import opened Resources
  import opened Cluster

  /** The server after the call, and whether the call returned without an error. */
  datatype Outcome = Outcome(g: Grafana, ok: bool)

  function FolderIfEmptyDeleted(g: Grafana, id: int, i: nat, f: Faults): Outcome {
    if f(i, ListDashboards) != NoFault then Outcome(g, false)
    else if InUse(g, id) then Outcome(g, true)
    else if f(i, GetFolder) != NoFault || !HasFolder(g.folders, id) then Outcome(g, false)
    else Outcome(if f(i, DeleteFolder) == Lost then g else DropFolder(g, id), f(i, DeleteFolder) == NoFault)
  }

  /** The last two steps on an instance: plugins of internal instances, then the saved list. */
  function Forgotten(g: Grafana, i: nat, key: Key, f: Faults): Outcome {
    if !g.external && f(i, ReconcilePlugins) != NoFault then Outcome(g, false)
    else Outcome(if f(i, SaveInstance) == Lost then g else g.(status := Removed(g.status, key)),
                 f(i, SaveInstance) == NoFault)
  }

  /** One instance that lists the key under `uid`. */
  function DeletedFrom(g: Grafana, i: nat, key: Key, uid: string, f: Faults): Outcome {
    if f(i, NewClient) != NoFault || f(i, GetDashboard) != NoFault then Outcome(g, false)
    else
      var folder := if uid in g.dashes then g.dashes[uid].folder else 0;
      match f(i, DeleteDashboard)
      case Lost => Outcome(g, false)
      case Applied => Outcome(DropDash(g, uid), false)
      case NoFault =>
        var emptied := if folder > 0 then FolderIfEmptyDeleted(DropDash(g, uid), folder, i, f)
                       else Outcome(DropDash(g, uid), true);
        if emptied.ok then Forgotten(emptied.g, i, key, f) else emptied
  }

  function DeletedOn(g: Grafana, i: nat, key: Key, f: Faults): Outcome {
    match Found(g.status, key)
    case None => Outcome(g, true)
    case Some(uid) => DeletedFrom(g, i, key, uid, f)
  }

  /** The instances from the n-th on, up to the first error. */
  function DeletedEverywhere(gs: seq<Grafana>, n: nat, key: Key, f: Faults): (r: (seq<Grafana>, bool))
    requires n <= |gs|
    ensures |r.0| == |gs|
    decreases |gs| - n
  {
    if n == |gs| then (gs, true)
    else
      var d := DeletedOn(gs[n], n, key, f);
      if d.ok then DeletedEverywhere(gs[n := d.g], n + 1, key, f) else (gs[n := d.g], false)
  }

  /** One call of onDashboardDeleted. */
  function Deleted(gs: seq<Grafana>, key: Key, f: Faults): (seq<Grafana>, bool) {
    if f(0, ListInstances) != NoFault then (gs, false) else DeletedEverywhere(gs, 0, key, f)
  }

  // Removed lists

  lemma {:induction false} NotFound(list: seq<string>, key: Key)
    requires Found(list, key) == None
    ensures Removed(list, key) == list
  {
    if list != [] { NotFound(list[1..], key); }
  }

  lemma {:induction false} RemovedTwice(list: seq<string>, key: Key)
    ensures Found(Removed(list, key), key) == None
    ensures Removed(Removed(list, key), key) == Removed(list, key)
  {
    if list != [] { RemovedTwice(list[1..], key); }
  }

  lemma {:induction false} FoundMember(list: seq<string>, key: Key)
    ensures Found(list, key).Some? ==> exists r :: r in list && KeyOf(r) == key && UidOf(r) == Found(list, key).value
    ensures Found(list, key) == None <==> forall r | r in list :: KeyOf(r) != key
  {
    if list != [] {
      FoundMember(list[1..], key);
      assert list[0] in list;
      assert forall r :: r in list <==> r == list[0] || r in list[1..];
    }
  }

  lemma {:induction false} OthersMembers(folders: seq<Folder>, id: int)
    ensures forall x :: x in Others(folders, id) <==> x in folders && x.id != id
  {
    if folders != [] {
      OthersMembers(folders[1..], id);
      assert forall x :: x in folders <==> x == folders[0] || x in folders[1..];
    }
  }

  // One instance

  /** A folder goes only when it has no dashboards, so nothing goes with it. */
  lemma FolderDeletionIsSafe(g: Grafana, id: int, i: nat, f: Faults)
    ensures var r := FolderIfEmptyDeleted(g, id, i, f).g;
            r == g || (r == g.(folders := Others(g.folders, id)) && !InUse(g, id))
  {
    if !InUse(g, id) {
      assert DropFolder(g, id).dashes == g.dashes;
    }
  }

  /** An instance during or after a deletion of `key`: its list is as before or without the key;
      on the server at most the recorded dashboard is gone, and its folder if nothing is in it. */
  ghost predicate DeletionShape(g: Grafana, r: Outcome, key: Key) {
    var uid := Found(g.status, key);
    && r.g.ns == g.ns && r.g.ready == g.ready && r.g.external == g.external
    && (r.g.status == g.status || r.g.status == Removed(g.status, key))
    && (r.g.dashes == g.dashes || (uid.Some? && r.g.dashes == g.dashes - {uid.value}))
    && (r.g.folders == g.folders || (uid.Some? && uid.value in g.dashes && 0 < g.dashes[uid.value].folder
                                     && r.g.dashes == g.dashes - {uid.value}
                                     && !InUse(r.g, g.dashes[uid.value].folder)
                                     && r.g.folders == Others(g.folders, g.dashes[uid.value].folder)))
  }

  /** Once the recorded dashboard is deleted: its folder may follow, then the list's entries. */
  lemma DroppedShape(g: Grafana, e: Grafana, r: Outcome, key: Key, uid: string)
    requires Found(g.status, key) == Some(uid)
    requires e == DropDash(g, uid)
             || (uid in g.dashes && 0 < g.dashes[uid].folder && !InUse(e, g.dashes[uid].folder)
                 && e == DropDash(g, uid).(folders := Others(g.folders, g.dashes[uid].folder)))
    requires r.g == e || r.g == e.(status := Removed(e.status, key))
    ensures DeletionShape(g, r, key)
  {
  }

  lemma ForgottenShape(g: Grafana, i: nat, key: Key, f: Faults)
    ensures var r := Forgotten(g, i, key, f).g; r == g || r == g.(status := Removed(g.status, key))
  {
  }

  lemma DeletionStep(g: Grafana, i: nat, key: Key, f: Faults)
    ensures DeletionShape(g, DeletedOn(g, i, key, f), key)
  {
    match Found(g.status, key)
    case None => NotFound(g.status, key);
    case Some(uid) =>
      var dropped, r := DropDash(g, uid), DeletedFrom(g, i, key, uid, f);
      if f(i, NewClient) != NoFault || f(i, GetDashboard) != NoFault || f(i, DeleteDashboard) == Lost {
        assert r.g == g;
      } else if uid in g.dashes && 0 < g.dashes[uid].folder && f(i, DeleteDashboard) == NoFault {
        var e := FolderIfEmptyDeleted(dropped, g.dashes[uid].folder, i, f).g;
        FolderDeletionIsSafe(dropped, g.dashes[uid].folder, i, f);
        ForgottenShape(e, i, key, f);
        DroppedShape(g, e, r, key, uid);
      } else {
        ForgottenShape(dropped, i, key, f);
        DroppedShape(g, dropped, r, key, uid);
      }
  }

  lemma FinishedStep(g: Grafana, i: nat, key: Key, f: Faults)
    ensures var r := DeletedOn(g, i, key, f);
            r.ok ==> r.g.status == Removed(g.status, key) &&
                     r.g.dashes == if Found(g.status, key).Some? then g.dashes - {Found(g.status, key).value} else g.dashes
  {
    match Found(g.status, key)
    case None => NotFound(g.status, key);
    case Some(uid) =>
      if uid in g.dashes {
        FolderDeletionIsSafe(DropDash(g, uid), g.dashes[uid].folder, i, f);
      }
  }

  // All instances

  lemma {:induction false} DeletionSteps(gs: seq<Grafana>, n: nat, key: Key, f: Faults)
    requires n <= |gs|
    ensures var r := DeletedEverywhere(gs, n, key, f);
            && (forall j | 0 <= j < n :: r.0[j] == gs[j])
            && (forall j | 0 <= j < |gs| :: DeletionShape(gs[j], Outcome(r.0[j], r.1), key))
            && (r.1 ==> forall j | n <= j < |gs| ::
                          r.0[j].status == Removed(gs[j].status, key) &&
                          r.0[j].dashes == if Found(gs[j].status, key).Some?
                                           then gs[j].dashes - {Found(gs[j].status, key).value} else gs[j].dashes)
    decreases |gs| - n
  {
    if n < |gs| {
      DeletionStep(gs[n], n, key, f);
      FinishedStep(gs[n], n, key, f);
      var d := DeletedOn(gs[n], n, key, f);
      if d.ok {
        DeletionSteps(gs[n := d.g], n + 1, key, f);
      }
    }
  }

  /** MAIN: a deletion that returns without an error is complete. No instance lists the key; all
      other entries stay, in order; and of the dashboards exactly the recorded ones are gone. */
  lemma DeletionIsComplete(gs: seq<Grafana>, key: Key, f: Faults)
    requires Deleted(gs, key, f).1
    ensures var r := Deleted(gs, key, f).0; |r| == |gs| && forall j | 0 <= j < |gs| ::
              && Found(r[j].status, key) == None
              && r[j].status == Removed(gs[j].status, key)
              && (forall u :: u in r[j].dashes <==> u in gs[j].dashes && Found(gs[j].status, key) != Some(u))
              && (forall u | u in r[j].dashes :: r[j].dashes[u] == gs[j].dashes[u])
  {
    DeletionSteps(gs, 0, key, f);
    forall j | 0 <= j < |gs| ensures Found(Removed(gs[j].status, key), key) == None {
      RemovedTwice(gs[j].status, key);
    }
  }

  // The folder of the deleted dashboard

  /** Another dashboard than `uid` is in folder x. */
  predicate UsedByOther(g: Grafana, uid: string, x: int) {
    exists u | u in g.dashes :: u != uid && g.dashes[u].folder == x
  }

  /** The folders of an instance before and after a deletion of the dashboard `uid`, if any: its folder
      goes exactly if no other dashboard is in it, and the others stay in order. */
  ghost predicate FolderFollows(g: Grafana, h: Grafana, uid: Option<string>) {
    if uid.None? || uid.value !in g.dashes || g.dashes[uid.value].folder <= 0 then h.folders == g.folders
    else
      var x := g.dashes[uid.value].folder;
      if UsedByOther(g, uid.value, x) then h.folders == g.folders
      else HasFolder(g.folders, x) && !HasFolder(h.folders, x) && h.folders == Others(g.folders, x)
  }

  /** Others keeps the order and drops nothing else. */
  lemma {:induction false} OthersConcat(a: seq<Folder>, b: seq<Folder>, id: int)
    ensures Others(a + b, id) == Others(a, id) + Others(b, id)
    ensures (forall x | x in a :: x.id != id) ==> Others(a, id) == a
    ensures (forall x | x in a :: x.id == id) ==> Others(a, id) == []
  {
    if a == [] {
      assert a + b == b;
    } else {
      assert (a + b)[1..] == a[1..] + b;
      OthersConcat(a[1..], b, id);
      assert a[0] in a;
    }
  }

  /** No call that a successful deletion makes on an instance fails. */
  ghost predicate NothingFails(g: Grafana, i: nat, uid: Option<string>, f: Faults) {
    uid.Some? ==>
      && f(i, NewClient) == NoFault && f(i, GetDashboard) == NoFault && f(i, DeleteDashboard) == NoFault
      && f(i, SaveInstance) == NoFault && (!g.external ==> f(i, ReconcilePlugins) == NoFault)
      && (uid.value in g.dashes && 0 < g.dashes[uid.value].folder ==>
            f(i, ListDashboards) == NoFault
            && (!UsedByOther(g, uid.value, g.dashes[uid.value].folder) ==>
                  f(i, GetFolder) == NoFault && f(i, DeleteFolder) == NoFault))
  }

  lemma UseAfterDrop(g: Grafana, uid: string, x: int)
    ensures InUse(DropDash(g, uid), x) <==> UsedByOther(g, uid, x)
  {
    if u :| u in g.dashes && u != uid && g.dashes[u].folder == x {
      assert u in DropDash(g, uid).dashes;
    }
  }

  lemma EmptyFolderGoes(g: Grafana, x: int, i: nat, f: Faults)
    requires FolderIfEmptyDeleted(g, x, i, f).ok
    ensures var h := FolderIfEmptyDeleted(g, x, i, f).g;
            && f(i, ListDashboards) == NoFault
            && (InUse(g, x) ==> h.folders == g.folders)
            && (!InUse(g, x) ==> f(i, GetFolder) == NoFault && f(i, DeleteFolder) == NoFault && HasFolder(g.folders, x)
                                 && h.folders == Others(g.folders, x) && !HasFolder(h.folders, x))
  {
    OthersMembers(g.folders, x);
  }

  lemma FolderStep(g: Grafana, i: nat, key: Key, f: Faults)
    requires DeletedOn(g, i, key, f).ok
    ensures FolderFollows(g, DeletedOn(g, i, key, f).g, Found(g.status, key))
    ensures NothingFails(g, i, Found(g.status, key), f)
  {
    match Found(g.status, key)
    case None =>
    case Some(uid) =>
      if uid in g.dashes && 0 < g.dashes[uid].folder {
        UseAfterDrop(g, uid, g.dashes[uid].folder);
        EmptyFolderGoes(DropDash(g, uid), g.dashes[uid].folder, i, f);
      }
  }

  /** A deletion without an error has finished on every instance. */
  lemma {:induction false} FinishedEverywhere(gs: seq<Grafana>, n: nat, key: Key, f: Faults)
    requires n <= |gs| && DeletedEverywhere(gs, n, key, f).1
    ensures var hs := DeletedEverywhere(gs, n, key, f).0;
            && (forall j | 0 <= j < n :: hs[j] == gs[j])
            && forall j: nat | n <= j < |gs| :: DeletedOn(gs[j], j, key, f).ok && hs[j] == DeletedOn(gs[j], j, key, f).g
    decreases |gs| - n
  {
    if n < |gs| {
      var gs' := gs[n := DeletedOn(gs[n], n, key, f).g];
      FinishedEverywhere(gs', n + 1, key, f);
      var hs := DeletedEverywhere(gs, n, key, f).0;
      assert hs[n] == gs'[n];
      forall j: nat | n <= j < |gs| ensures DeletedOn(gs[j], j, key, f).ok && hs[j] == DeletedOn(gs[j], j, key, f).g {
        if j > n {
          assert gs'[j] == gs[j];
        }
      }
    }
  }

  /** MAIN: a deletion that returns without an error has removed the folder of the recorded dashboard
      exactly where no other dashboard was in it, and no other folder; and no call has failed. */
  lemma FoldersFollow(gs: seq<Grafana>, key: Key, f: Faults)
    requires Deleted(gs, key, f).1
    ensures f(0, ListInstances) == NoFault && |Deleted(gs, key, f).0| == |gs|
    ensures forall j: nat | j < |gs| ::
              FolderFollows(gs[j], Deleted(gs, key, f).0[j], Found(gs[j].status, key))
              && NothingFails(gs[j], j, Found(gs[j].status, key), f)
  {
    FinishedEverywhere(gs, 0, key, f);
    forall j: nat | j < |gs|
      ensures FolderFollows(gs[j], Deleted(gs, key, f).0[j], Found(gs[j].status, key))
      ensures NothingFails(gs[j], j, Found(gs[j].status, key), f)
    {
      FolderStep(gs[j], j, key, f);
    }
  }

  /** MAIN: the exact condition for a deletion to leave no recorded dashboard of the key behind. An
      instance may list the key several times, after a resource was re-created; only the first
      entry counts, so no other entry may have its dashboard on the server. */
  lemma NoRecordedUidSurvives(gs: seq<Grafana>, key: Key, f: Faults, j: nat)
    requires Deleted(gs, key, f).1 && j < |gs|
    ensures |Deleted(gs, key, f).0| == |gs|
    ensures (forall e | e in gs[j].status && KeyOf(e) == key :: UidOf(e) !in Deleted(gs, key, f).0[j].dashes)
            <==>
            (forall e | e in gs[j].status && KeyOf(e) == key && UidOf(e) in gs[j].dashes ::
               Found(gs[j].status, key) == Some(UidOf(e)))
  {
    DeletionIsComplete(gs, key, f);
  }

  /** With at most one entry per key this is the case. */
  lemma UniqueEntryIsFound(list: seq<string>, key: Key)
    requires UniqueKeys(list)
    ensures forall e | e in list && KeyOf(e) == key :: Found(list, key) == Some(UidOf(e))
  {
    FoundIsLookup(list, key);
    forall e | e in list && KeyOf(e) == key ensures Found(list, key) == Some(UidOf(e)) {
      UniqueEntry(list, e);
    }
  }

  /** MAIN: every deletion, also one that fails half way, leaves the rest alone. Other entries
      and dashboards stay, and a folder disappears only with no dashboard in it. */
  lemma DeletionIsSafe(gs: seq<Grafana>, key: Key, f: Faults)
    ensures |Deleted(gs, key, f).0| == |gs|
    ensures forall j | 0 <= j < |gs| ::
              DeletionShape(gs[j], Outcome(Deleted(gs, key, f).0[j], Deleted(gs, key, f).1), key)
  {
    DeletionSteps(gs, 0, key, f);
  }

  /** A state that earlier, possibly failed, deletions of `key` may have led to. */
  ghost predicate PartlyDeleted(gs: seq<Grafana>, hs: seq<Grafana>, key: Key) {
    |hs| == |gs| && forall j | 0 <= j < |gs| ::
      hs[j].status == gs[j].status || hs[j].status == Removed(gs[j].status, key)
  }

  function Rerun(gs: seq<Grafana>, key: Key, runs: seq<Faults>): seq<Grafana>
    decreases |runs|
  {
    if runs == [] then gs else Rerun(Deleted(gs, key, runs[0]).0, key, runs[1..])
  }

  lemma {:induction false} RerunsPartlyDelete(gs: seq<Grafana>, hs: seq<Grafana>, key: Key, runs: seq<Faults>)
    requires PartlyDeleted(gs, hs, key)
    ensures PartlyDeleted(gs, Rerun(hs, key, runs), key)
    decreases |runs|
  {
    if runs != [] {
      DeletionIsSafe(hs, key, runs[0]);
      forall j | 0 <= j < |gs| ensures Removed(Removed(gs[j].status, key), key) == Removed(gs[j].status, key) {
        RemovedTwice(gs[j].status, key);
      }
      RerunsPartlyDelete(gs, Deleted(hs, key, runs[0]).0, key, runs[1..]);
    }
  }

  /** MAIN: deletion can be resumed. After any number of runs that failed anywhere, a run that
      returns without an error reaches the status lists a single successful run would have. */
  lemma DeletionIsResumable(gs: seq<Grafana>, key: Key, failed: seq<Faults>, f: Faults)
    requires Deleted(Rerun(gs, key, failed), key, f).1
    ensures var r := Deleted(Rerun(gs, key, failed), key, f).0;
            |r| == |gs| && forall j | 0 <= j < |gs| :: r[j].status == Removed(gs[j].status, key)
  {
    RerunsPartlyDelete(gs, gs, key, failed);
    var hs := Rerun(gs, key, failed);
    DeletionIsComplete(hs, key, f);
    forall j | 0 <= j < |gs| ensures Removed(hs[j].status, key) == Removed(gs[j].status, key) {
      RemovedTwice(gs[j].status, key);
    }
  }

  // Folders

  /** Folder ids are positive and unique, titles are unique, and every dashboard is in the
      general folder or in one that exists. */
  ghost predicate FolderInv(g: Grafana) {
    && (forall a, b | 0 <= a < b < |g.folders| ::
          g.folders[a].id != g.folders[b].id && g.folders[a].title != g.folders[b].title)
    && (forall x | x in g.folders :: 0 < x.id)
    && (forall u | u in g.dashes :: g.dashes[u].folder == 0 || HasFolder(g.folders, g.dashes[u].folder))
  }

  /** Dropping an unused folder keeps the others, still unique. */
  lemma {:induction false} OthersUnique(folders: seq<Folder>, id: int)
    requires forall a, b | 0 <= a < b < |folders| ::
               folders[a].id != folders[b].id && folders[a].title != folders[b].title
    ensures forall a, b | 0 <= a < b < |Others(folders, id)| ::
              Others(folders, id)[a].id != Others(folders, id)[b].id
              && Others(folders, id)[a].title != Others(folders, id)[b].title
  {
    if folders != [] {
      var rest := folders[1..];
      assert forall a | 0 <= a < |rest| :: rest[a] == folders[a + 1];
      OthersUnique(rest, id);
      OthersMembers(rest, id);
      var out := Others(rest, id);
      forall b | 0 <= b < |out| ensures out[b].id != folders[0].id && out[b].title != folders[0].title {
        assert out[b] in out;
        assert out[b] in rest;
      }
    }
  }

  lemma DeletionKeepsFolderInv(g: Grafana, r: Outcome, key: Key)
    requires FolderInv(g) && DeletionShape(g, r, key)
    ensures FolderInv(r.g)
  {
    if r.g.folders != g.folders {
      var id := g.dashes[Found(g.status, key).value].folder;
      OthersUnique(g.folders, id);
      OthersMembers(g.folders, id);
      forall u | u in r.g.dashes ensures r.g.dashes[u].folder == 0 || HasFolder(r.g.folders, r.g.dashes[u].folder) {
        assert r.g.dashes[u].folder != id;
        if r.g.dashes[u].folder != 0 {
          var x :| x in g.folders && x.id == r.g.dashes[u].folder;
          assert x in r.g.folders;
        }
      }
    }
  }

  lemma {:induction false} DeletionSucceedsFrom(gs: seq<Grafana>, n: nat, key: Key)
    requires n <= |gs| && forall j | n <= j < |gs| :: FolderInv(gs[j])
    ensures DeletedEverywhere(gs, n, key, NoFaults()).1
    decreases |gs| - n
  {
    if n < |gs| {
      var d := DeletedOn(gs[n], n, key, NoFaults());
      assert d.ok;
      DeletionSucceedsFrom(gs[n := d.g], n + 1, key);
    }
  }

  /** MAIN: where the folder invariant holds, a fault-free deletion returns without an error,
      so that a deletion is only ever held up by calls that fail. */
  lemma DeletionSucceeds(gs: seq<Grafana>, key: Key)
    requires forall g | g in gs :: FolderInv(g)
    ensures Deleted(gs, key, NoFaults()).1
  {
    DeletionSucceedsFrom(gs, 0, key);
  }
}
