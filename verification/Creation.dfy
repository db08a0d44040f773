/** Importing a dashboard into its matching instances (controllers/dashboard_controller.go,
    the loop of Reconcile, onDashboardCreated, GetOrCreateFolder). */
module Creation {
  import opened Wrappers
  import opened Resources
  import opened Inputs
  import opened Cluster
  import opened Deletion

  /** fetchDashboardJson: exactly one source must be configured. */
  function Fetched(cr: Dashboard): Result<string> {
    var sources := (if cr.json != "" then [Ok(cr.json)] else []) + cr.others;
    if |sources| == 0 then Err("no source type provided")
    else if |sources| > 1 then Err("more than one source types found")
    else sources[0]
  }

  /** The text an instance receives: the fetched one with its inputs mapped. */
  function Resolved(cr: Dashboard): Result<string> {
    match Fetched(cr)
    case Err(e) => Err(e)
    case Ok(json) => Resolve(cr.mappings, json)
  }

  datatype FolderResult = FolderResult(g: Grafana, id: Option<int>)

  /** `newId` is the id the server hands out if a folder is created. */
  function FolderFor(g: Grafana, title: string, i: nat, f: Faults, newId: int): FolderResult {
    if title == "" then FolderResult(g, Some(0))
    else if f(i, ListFolders) != NoFault then FolderResult(g, None)
    else if FolderNamed(g.folders, title) != 0 then FolderResult(g, Some(FolderNamed(g.folders, title)))
    else
      var created := g.(folders := g.folders + [Folder(newId, title)]);
      match f(i, NewFolder)
      case NoFault => FolderResult(created, Some(newId))
      case Lost => FolderResult(g, None)
      case Applied => FolderResult(created, None)
  }

  /** The server, the in-memory resource, the stored hash, and whether there was no error. */
  datatype Created = Created(g: Grafana, cr: Dashboard, hash: string, ok: bool)

  /** The last two calls: save the instance's list, then the resource's hash. `stored` is
      Spec.Json as the API server has it. */
  function Recorded(g: Grafana, cr: Dashboard, stored: string, hash: string, i: nat, f: Faults, lib: Library): Created {
    var listed := g.(status := Added(g.status, cr.key, cr.uid));
    match f(i, SaveInstance)
    case Lost => Created(g, cr, hash, false)
    case Applied => Created(listed, cr, hash, false)
    case NoFault =>
      var marked := cr.(hash := lib.sha(cr.json));
      match f(i, SaveResource)
      case Lost => Created(listed, marked, hash, false)
      case Applied => Created(listed, marked, marked.hash, false)
      case NoFault =>
        Created(listed, if lib.refresh then marked.(json := stored) else marked, marked.hash, true)
  }

  /** Write the dashboard into its folder, then record it. */
  function Written(g: Grafana, cr: Dashboard, stored: string, hash: string, i: nat, f: Faults, newId: int,
                   lib: Library): Created {
    var folder := FolderFor(g, cr.folderTitle, i, f, newId);
    if folder.id.None? then Created(folder.g, cr, hash, false)
    else
      var written := folder.g.(dashes := folder.g.dashes[cr.uid := Dash(folder.id.value, cr.json)]);
      match f(i, NewDashboard)
      case Lost => Created(folder.g, cr, hash, false)
      case Applied => Created(written, cr, hash, false)
      case NoFault => Recorded(written, cr, stored, hash, i, f, lib)
  }

  /** onDashboardCreated on instance i. */
  function CreatedOn(g: Grafana, cr: Dashboard, stored: string, hash: string, i: nat, f: Faults, newId: int,
                     lib: Library): Created {
    if Resolved(cr).Err? || (g.external && cr.plugins) then Created(g, cr, hash, false)
    else
      var mem := cr.(json := Resolved(cr).value);
      if f(i, NewClient) != NoFault || f(i, ListDashboards) != NoFault then Created(g, mem, hash, false)
      else if mem.uid in g.dashes && lib.sha(mem.json) == mem.hash then Created(g, mem, hash, true)
      else if !lib.parses(mem.json) then Created(g, mem, hash, false)
      else Written(g, mem, stored, hash, i, f, newId, lib)
  }

  /** The instances, the in-memory resource, the stored hash, and the success flag. */
  datatype Import = Import(gs: seq<Grafana>, cr: Dashboard, hash: string, ok: bool)

  predicate Eligible(g: Grafana, cr: Dashboard) {
    g.ns == cr.key.ns || cr.allowCross
  }

  /** The loop over the matching instances, from the n-th on. */
  function ImportFrom(s: Import, matching: seq<nat>, n: nat, stored: string, f: Faults, newIds: nat -> int,
                      lib: Library): (r: Import)
    requires n <= |matching| && forall m | 0 <= m < |matching| :: matching[m] < |s.gs|
    ensures |r.gs| == |s.gs|
    decreases |matching| - n
  {
    if n == |matching| then s
    else
      var i := matching[n];
      ImportFrom(ImportOne(s, i, stored, f, newIds(i), lib), matching, n + 1, stored, f, newIds, lib)
  }

  /** One round of the loop. */
  function ImportOne(s: Import, i: nat, stored: string, f: Faults, newId: int, lib: Library): (r: Import)
    requires i < |s.gs|
    ensures |r.gs| == |s.gs|
  {
    var g := s.gs[i];
    if !Eligible(g, s.cr) then s
    else if !g.ready then s.(ok := false)
    else
      var c := CreatedOn(g, s.cr, stored, s.hash, i, f, newId, lib);
      var pluginsOk := g.external || f(i, ReconcilePlugins) == NoFault;
      Import(s.gs[i := c.g], c.cr, c.hash, s.ok && pluginsOk && c.ok)
  }

  /** Reconcile of an existing resource. */
  function Imported(gs: seq<Grafana>, cr: Dashboard, f: Faults, newIds: nat -> int, lib: Library): Import
    requires forall m | 0 <= m < |cr.matching| :: cr.matching[m] < |gs|
  {
    if f(0, ListInstances) != NoFault then Import(gs, cr, cr.hash, false)
    else ImportFrom(Import(gs, cr, cr.hash, true), cr.matching, 0, cr.json, f, newIds, lib)
  }

  // What every import keeps

  /** In memory only Spec.Json and the hash change. */
  predicate SameResource(a: Dashboard, b: Dashboard) {
    b.(json := a.json, hash := a.hash) == a
  }

  /** An instance after an import: nothing of another resource changes. */
  ghost predicate ImportShape(g: Grafana, h: Grafana, cr: Dashboard) {
    && h.(status := g.status, dashes := g.dashes, folders := g.folders) == g
    && (h.status == g.status || h.status == Added(g.status, cr.key, cr.uid))
    && (forall u | u != cr.uid :: (u in h.dashes <==> u in g.dashes) && (u in g.dashes ==> h.dashes[u] == g.dashes[u]))
    && (cr.uid in g.dashes ==> cr.uid in h.dashes)
    && g.folders <= h.folders
  }

  lemma FolderForShape(g: Grafana, title: string, i: nat, f: Faults, newId: int)
    ensures FolderFor(g, title, i, f, newId).g.(folders := g.folders) == g
    ensures g.folders <= FolderFor(g, title, i, f, newId).g.folders
  {
  }

  lemma RecordedShape(g: Grafana, cr: Dashboard, stored: string, hash: string, i: nat, f: Faults, lib: Library)
    ensures var c := Recorded(g, cr, stored, hash, i, f, lib);
            && SameResource(cr, c.cr)
            && (c.g == g || c.g == g.(status := Added(g.status, cr.key, cr.uid)))
            && (c.hash != hash ==> c.g == g.(status := Added(g.status, cr.key, cr.uid)))
  {
  }

  lemma WrittenShape(g: Grafana, cr: Dashboard, stored: string, hash: string, i: nat, f: Faults, newId: int,
                     lib: Library)
    ensures var c := Written(g, cr, stored, hash, i, f, newId, lib);
            && SameResource(cr, c.cr) && ImportShape(g, c.g, cr)
            && (c.hash != hash ==> c.g.status == Added(g.status, cr.key, cr.uid))
  {
    FolderForShape(g, cr.folderTitle, i, f, newId);
    var folder := FolderFor(g, cr.folderTitle, i, f, newId);
    if folder.id.Some? {
      var written := folder.g.(dashes := folder.g.dashes[cr.uid := Dash(folder.id.value, cr.json)]);
      RecordedShape(written, cr, stored, hash, i, f, lib);
    }
  }

  lemma AddedKeeps(list: seq<string>, key: Key, uid: string)
    ensures Print(key, uid) in Added(list, key, uid)
    ensures forall e | e in list :: e in Added(list, key, uid)
  {
  }

  /** Whatever fails, creation touches nothing of other resources, never unlists an entry, and
      changes the stored hash only with the entry listed. */
  lemma CreatedShape(g: Grafana, cr: Dashboard, stored: string, hash: string, i: nat, f: Faults, newId: int,
                     lib: Library)
    ensures var c := CreatedOn(g, cr, stored, hash, i, f, newId, lib);
            && SameResource(cr, c.cr) && ImportShape(g, c.g, cr)
            && (c.hash != hash ==> Print(cr.key, cr.uid) in c.g.status)
            && (forall e | e in g.status :: e in c.g.status)
  {
    AddedKeeps(g.status, cr.key, cr.uid);
    var c := CreatedOn(g, cr, stored, hash, i, f, newId, lib);
    match Resolved(cr)
    case Err(_) => assert c == Created(g, cr, hash, false);
    case Ok(text) =>
      var mem := cr.(json := text);
      var w := Written(g, mem, stored, hash, i, f, newId, lib);
      WrittenShape(g, mem, stored, hash, i, f, newId, lib);
      assert (c.g == g && c.hash == hash && SameResource(cr, c.cr)) || c == w;
  }

  // Folders

  /** The server hands out ids that are new to it. */
  predicate FreshId(g: Grafana, newId: int) {
    0 < newId && !HasFolder(g.folders, newId)
  }

  lemma {:induction false} FolderNamedFinds(folders: seq<Folder>, title: string)
    requires forall x | x in folders :: 0 < x.id
    ensures var id := FolderNamed(folders, title);
            if id == 0 then forall x | x in folders :: x.title != title
            else exists x :: x in folders && x.id == id && x.title == title
  {
    if folders != [] {
      assert folders[0] in folders;
      assert forall x :: x in folders <==> x == folders[0] || x in folders[1..];
      FolderNamedFinds(folders[1..], title);
    }
  }

  /** A folder is created only under a title that no folder has, and the id handed to the
      dashboard is that of a folder with its title. */
  lemma FolderForKeepsInv(g: Grafana, title: string, i: nat, f: Faults, newId: int)
    requires FolderInv(g) && FreshId(g, newId)
    ensures var r := FolderFor(g, title, i, f, newId);
            && FolderInv(r.g) && r.g.(folders := g.folders) == g
            && g.folders <= r.g.folders
            && (r.id.Some? ==> if title == "" then r.id.value == 0
                               else exists x :: x in r.g.folders && x.id == r.id.value && x.title == title)
  {
    FolderNamedFinds(g.folders, title);
    if title != "" && FolderNamed(g.folders, title) == 0 {
      NewFolderKeepsInv(g, Folder(newId, title));
    }
  }

  lemma NewFolderKeepsInv(g: Grafana, x: Folder)
    requires FolderInv(g) && FreshId(g, x.id) && forall y | y in g.folders :: y.title != x.title
    ensures FolderInv(g.(folders := g.folders + [x])) && x in g.folders + [x]
  {
    var fs := g.folders + [x];
    assert fs[|g.folders|] == x;
    assert forall y | y in g.folders :: y in fs;
    assert forall a | 0 <= a < |g.folders| :: g.folders[a] in g.folders;
    forall u | u in g.dashes && g.dashes[u].folder != 0 ensures HasFolder(fs, g.dashes[u].folder) {
      var y :| y in g.folders && y.id == g.dashes[u].folder;
      assert y in fs;
    }
  }

  lemma WrittenKeepsFolderInv(g: Grafana, cr: Dashboard, stored: string, hash: string, i: nat, f: Faults,
                              newId: int, lib: Library)
    requires FolderInv(g) && FreshId(g, newId)
    ensures FolderInv(Written(g, cr, stored, hash, i, f, newId, lib).g)
  {
    FolderForKeepsInv(g, cr.folderTitle, i, f, newId);
    var folder := FolderFor(g, cr.folderTitle, i, f, newId);
    if folder.id.Some? {
      var written := folder.g.(dashes := folder.g.dashes[cr.uid := Dash(folder.id.value, cr.json)]);
      assert FolderInv(written);
      RecordedShape(written, cr, stored, hash, i, f, lib);
    }
  }

  lemma CreatedKeepsFolderInv(g: Grafana, cr: Dashboard, stored: string, hash: string, i: nat, f: Faults,
                              newId: int, lib: Library)
    requires FolderInv(g) && FreshId(g, newId)
    ensures FolderInv(CreatedOn(g, cr, stored, hash, i, f, newId, lib).g)
  {
    if Resolved(cr).Ok? {
      WrittenKeepsFolderInv(g, cr.(json := Resolved(cr).value), stored, hash, i, f, newId, lib);
    }
  }

  /** A dashboard that is written ends up in the folder of its title. */
  lemma WrittenIntoItsFolder(g: Grafana, cr: Dashboard, stored: string, i: nat, newId: int, lib: Library)
    requires FolderInv(g) && FreshId(g, newId)
    ensures var c := Written(g, cr, stored, cr.hash, i, NoFaults(), newId, lib);
            && c.ok && cr.uid in c.g.dashes && c.g.dashes[cr.uid].body == cr.json
            && if cr.folderTitle == "" then c.g.dashes[cr.uid].folder == 0
               else exists x :: x in c.g.folders && x.id == c.g.dashes[cr.uid].folder && x.title == cr.folderTitle
  {
    FolderForKeepsInv(g, cr.folderTitle, i, NoFaults(), newId);
  }

  // The write set of a reconcile

  predicate MatchingOk(gs: seq<Grafana>, cr: Dashboard) {
    && (forall m | 0 <= m < |cr.matching| :: cr.matching[m] < |gs|)
    && (forall a, b | 0 <= a < b < |cr.matching| :: cr.matching[a] != cr.matching[b])
  }

  /** External instances take no dashboards with plugins. */
  predicate Refuses(g: Grafana, cr: Dashboard) { g.external && cr.plugins }

  /** The m-th matching instance takes part in the import. */
  predicate Target(gs: seq<Grafana>, cr: Dashboard, m: nat)
    requires m < |cr.matching| && cr.matching[m] < |gs|
  {
    var g := gs[cr.matching[m]];
    Eligible(g, cr) && g.ready && !Refuses(g, cr)
  }

  predicate TargetBefore(gs: seq<Grafana>, cr: Dashboard, n: nat)
    requires MatchingOk(gs, cr) && n <= |cr.matching|
  {
    exists k | 0 <= k < n :: Target(gs, cr, k)
  }

  /** The source is raw JSON, not a URL, gzip or Jsonnet. */
  predicate IsRaw(cr: Dashboard) { cr.json != "" }

  /** The one source delivers `text`; mapped raw JSON can be mapped again without an effect. */
  predicate Delivers(cr: Dashboard, text: string) {
    Resolved(cr) == Ok(text) && (IsRaw(cr) ==> text != "" && Resolve(cr.mappings, text) == Ok(text))
  }

  /** When the m-th target's turn comes, the dashboard exists there and seems unchanged: after the
      first target has been written the saved hash is the new one. */
  predicate Skipped(gs: seq<Grafana>, cr: Dashboard, lib: Library, text: string, m: nat)
    requires MatchingOk(gs, cr) && m < |cr.matching|
  {
    && Target(gs, cr, m) && cr.uid in gs[cr.matching[m]].dashes
    && (lib.sha(text) == cr.hash || (lib.parses(text) && TargetBefore(gs, cr, m)))
  }

  /** The m-th target leaves Spec.Json filled in memory. Only a status update that copies the
      stored resource back empties it again. */
  predicate Fills(gs: seq<Grafana>, cr: Dashboard, lib: Library, text: string, m: nat)
    requires MatchingOk(gs, cr) && m < |cr.matching|
  {
    Target(gs, cr, m) && !(lib.refresh && lib.parses(text) && !Skipped(gs, cr, lib, text, m))
  }

  /** An earlier target has left Spec.Json filled beside another source. */
  predicate Blocked(gs: seq<Grafana>, cr: Dashboard, lib: Library, text: string, n: nat)
    requires MatchingOk(gs, cr) && n <= |cr.matching|
  {
    !IsRaw(cr) && text != "" && exists k | 0 <= k < n :: Fills(gs, cr, lib, text, k)
  }

  /** The m-th matching instance receives the text. */
  predicate Receives(gs: seq<Grafana>, cr: Dashboard, lib: Library, text: string, m: nat)
    requires MatchingOk(gs, cr) && m < |cr.matching|
  {
    && Target(gs, cr, m) && lib.parses(text)
    && !Skipped(gs, cr, lib, text, m) && !Blocked(gs, cr, lib, text, m)
  }

  /** The round on the m-th matching instance counts as a success. */
  predicate Satisfied(gs: seq<Grafana>, cr: Dashboard, lib: Library, text: string, m: nat)
    requires MatchingOk(gs, cr) && m < |cr.matching|
  {
    Eligible(gs[cr.matching[m]], cr) ==>
      && Target(gs, cr, m) && !Blocked(gs, cr, lib, text, m)
      && (Skipped(gs, cr, lib, text, m) || lib.parses(text))
  }

  /** An instance before and after it receives `text`: the dashboard is there and listed. */
  ghost predicate Updated(g: Grafana, h: Grafana, cr: Dashboard, text: string) {
    && ImportShape(g, h, cr) && UpToDate(h, cr, text) && Placed(g, h, cr)
    && h.status == Added(g.status, cr.key, cr.uid)
  }

  predicate HasTitle(folders: seq<Folder>, title: string) {
    exists x | x in folders :: x.title == title
  }

  /** The dashboard is in the general folder, or in one with the requested title: one that was there,
      or else a new one behind the others. */
  ghost predicate Placed(g: Grafana, h: Grafana, cr: Dashboard)
    requires cr.uid in h.dashes
  {
    var id := h.dashes[cr.uid].folder;
    if cr.folderTitle == "" then id == 0 && h.folders == g.folders
    else if HasTitle(g.folders, cr.folderTitle) && forall x | x in g.folders :: x.id != 0 then
      h.folders == g.folders && exists x :: x in g.folders && x == Folder(id, cr.folderTitle)
    else Folder(id, cr.folderTitle) in h.folders
         && (!HasTitle(g.folders, cr.folderTitle) ==> h.folders == g.folders + [Folder(id, cr.folderTitle)])
  }

  predicate UpToDate(g: Grafana, cr: Dashboard, text: string) {
    cr.uid in g.dashes && g.dashes[cr.uid].body == text
  }

  ghost predicate AfterImport(gs: seq<Grafana>, hs: seq<Grafana>, cr: Dashboard, lib: Library, text: string, m: nat)
    requires MatchingOk(gs, cr) && m < |cr.matching| && |hs| == |gs|
  {
    var i := cr.matching[m];
    if Receives(gs, cr, lib, text, m) then Updated(gs[i], hs[i], cr, text) else hs[i] == gs[i]
  }

  /** No call on this instance fails. */
  ghost predicate QuietAt(f: Faults, i: nat) {
    forall c :: f(i, c) == NoFault
  }

  lemma WrittenQuietly(g: Grafana, mem: Dashboard, stored: string, hash: string, i: nat, f: Faults, newId: int,
                       lib: Library)
    requires QuietAt(f, i)
    ensures var c := Written(g, mem, stored, hash, i, f, newId, lib);
            && c.ok && Updated(g, c.g, mem, mem.json) && c.hash == lib.sha(mem.json)
            && c.cr == mem.(json := if lib.refresh then stored else mem.json, hash := lib.sha(mem.json))
  {
    FolderForShape(g, mem.folderTitle, i, f, newId);
    FolderForPlaces(g, mem.folderTitle, i, f, newId);
  }

  lemma FolderForPlaces(g: Grafana, title: string, i: nat, f: Faults, newId: int)
    requires QuietAt(f, i)
    ensures var r := FolderFor(g, title, i, f, newId);
            && r.id.Some?
            && if title == "" then r.id.value == 0 && r.g.folders == g.folders
               else if HasTitle(g.folders, title) && forall x | x in g.folders :: x.id != 0 then
                 r.g.folders == g.folders && Folder(r.id.value, title) in g.folders
               else Folder(r.id.value, title) in r.g.folders
                    && (!HasTitle(g.folders, title) ==> r.g.folders == g.folders + [Folder(r.id.value, title)])
  {
    FolderNamedIs(g.folders, title);
  }

  lemma {:induction false} FolderNamedIs(folders: seq<Folder>, title: string)
    ensures var id := FolderNamed(folders, title);
            && (HasTitle(folders, title) ==> Folder(id, title) in folders) && (!HasTitle(folders, title) ==> id == 0)
  {
    if folders != [] {
      FolderNamedIs(folders[1..], title);
      assert folders[0] in folders && forall x :: x in folders <==> x == folders[0] || x in folders[1..];
      assert folders[0] == Folder(folders[0].id, folders[0].title);
    }
  }

  /** One round on an instance that takes part, when the source still delivers `text`. */
  lemma RoundOnTarget(g: Grafana, mem: Dashboard, stored: string, hash: string, i: nat, f: Faults, newId: int,
                      lib: Library, text: string)
    requires QuietAt(f, i) && !Refuses(g, mem) && Resolved(mem) == Ok(text)
    ensures var c := CreatedOn(g, mem, stored, hash, i, f, newId, lib);
            if mem.uid in g.dashes && mem.hash == lib.sha(text) then c == Created(g, mem.(json := text), hash, true)
            else if !lib.parses(text) then c == Created(g, mem.(json := text), hash, false)
            else c.ok && Updated(g, c.g, mem, text) && c.hash == lib.sha(text)
                 && c.cr == mem.(json := if lib.refresh then stored else text, hash := lib.sha(text))
  {
    WrittenQuietly(g, mem.(json := text), stored, hash, i, f, newId, lib);
  }

  /** What the source delivers between rounds. */
  lemma ResolvedBetween(cr: Dashboard, mem: Dashboard, text: string)
    requires Delivers(cr, text) && SameResource(cr, mem) && (mem.json == cr.json || mem.json == text)
    ensures IsRaw(cr) || mem.json == "" ==> Resolved(mem) == Ok(text)
    ensures !IsRaw(cr) && mem.json != "" ==> Resolved(mem).Err?
  {
  }

  /** The state after n rounds, in terms of the state before the first. */
  ghost predicate RoundState(gs: seq<Grafana>, s: Import, cr: Dashboard, lib: Library, text: string, n: nat)
    requires MatchingOk(gs, cr) && n <= |cr.matching|
  {
    && |s.gs| == |gs| && SameResource(cr, s.cr) && (s.cr.json == cr.json || s.cr.json == text)
    && (forall i: nat | i < |gs| && i !in cr.matching[..n] :: s.gs[i] == gs[i])
    && (forall m: nat | m < n :: AfterImport(gs, s.gs, cr, lib, text, m))
    && s.hash == s.cr.hash == (if lib.parses(text) && TargetBefore(gs, cr, n) then lib.sha(text) else cr.hash)
    && (!IsRaw(cr) ==> (s.cr.json != "" <==> Blocked(gs, cr, lib, text, n)))
  }

  /** Rounds on one instance leave the others and the part an instance plays as they are. */
  lemma RoundKeepsRest(s: Import, i: nat, stored: string, f: Faults, newId: int, lib: Library)
    requires i < |s.gs|
    ensures var r := ImportOne(s, i, stored, f, newId, lib);
            && (forall j | 0 <= j < |s.gs| && j != i :: r.gs[j] == s.gs[j])
            && SameResource(s.cr, r.cr)
            && (forall j | 0 <= j < |s.gs| ::
                  r.gs[j].ns == s.gs[j].ns && r.gs[j].ready == s.gs[j].ready && r.gs[j].external == s.gs[j].external)
  {
    CreatedShape(s.gs[i], s.cr, stored, s.hash, i, f, newId, lib);
  }

  /** What one round does, case by case. */
  ghost predicate Turned(gs: seq<Grafana>, s: Import, s': Import, cr: Dashboard, lib: Library, text: string, n: nat)
    requires MatchingOk(gs, cr) && n < |cr.matching| && |s.gs| == |gs|
  {
    var i := cr.matching[n];
    var filled := s.(cr := s.cr.(json := text));
    if !Target(gs, cr, n) then s' == if Eligible(gs[i], cr) then s.(ok := false) else s
    else if Blocked(gs, cr, lib, text, n) then s' == s.(ok := false)
    else if Skipped(gs, cr, lib, text, n) then s' == filled
    else if !lib.parses(text) then s' == filled.(ok := false)
    else && |s'.gs| == |gs| && s'.ok == s.ok && s'.gs == s.gs[i := s'.gs[i]] && Updated(gs[i], s'.gs[i], cr, text)
         && s'.hash == lib.sha(text)
         && s'.cr == s.cr.(json := if lib.refresh then cr.json else text, hash := lib.sha(text))
  }

  lemma Turn(gs: seq<Grafana>, s: Import, cr: Dashboard, lib: Library, text: string, n: nat, f: Faults, newId: int)
    requires MatchingOk(gs, cr) && Delivers(cr, text) && n < |cr.matching| && RoundState(gs, s, cr, lib, text, n)
    requires QuietAt(f, cr.matching[n])
    ensures s.gs[cr.matching[n]] == gs[cr.matching[n]]
    ensures Turned(gs, s, ImportOne(s, cr.matching[n], cr.json, f, newId, lib), cr, lib, text, n)
  {
    var i := cr.matching[n];
    assert i !in cr.matching[..n];
    assert s.gs[i := s.gs[i]] == s.gs;
    if Target(gs, cr, n) {
      TargetTurn(s.gs[i], s, cr, lib, text, i, f, newId);
    }
  }

  /** A target's turn. */
  lemma TargetTurn(g: Grafana, s: Import, cr: Dashboard, lib: Library, text: string, i: nat, f: Faults, newId: int)
    requires i < |s.gs| && s.gs[i] == g && Delivers(cr, text) && QuietAt(f, i)
    requires SameResource(cr, s.cr) && (s.cr.json == cr.json || s.cr.json == text)
    requires Eligible(g, cr) && g.ready && !Refuses(g, cr)
    ensures var s' := ImportOne(s, i, cr.json, f, newId, lib);
            var filled := s.(cr := s.cr.(json := text));
            if !IsRaw(cr) && s.cr.json != "" then s' == s.(ok := false)
            else if cr.uid in g.dashes && s.cr.hash == lib.sha(text) then s' == filled
            else if !lib.parses(text) then s' == filled.(ok := false)
            else && |s'.gs| == |s.gs| && s'.ok == s.ok && s'.gs == s.gs[i := s'.gs[i]] && Updated(g, s'.gs[i], cr, text)
                 && s'.hash == lib.sha(text)
                 && s'.cr == s.cr.(json := if lib.refresh then cr.json else text, hash := lib.sha(text))
  {
    assert s.gs[i := g] == s.gs;
    ResolvedBetween(cr, s.cr, text);
    if IsRaw(cr) || s.cr.json == "" {
      RoundOnTarget(g, s.cr, cr.json, s.hash, i, f, newId, lib, text);
    }
  }

  lemma OneMore(gs: seq<Grafana>, cr: Dashboard, lib: Library, text: string, n: nat)
    requires MatchingOk(gs, cr) && n < |cr.matching|
    ensures TargetBefore(gs, cr, n + 1) <==> TargetBefore(gs, cr, n) || Target(gs, cr, n)
    ensures Blocked(gs, cr, lib, text, n + 1) <==>
              || Blocked(gs, cr, lib, text, n)
              || (!IsRaw(cr) && text != "" && Fills(gs, cr, lib, text, n))
  {
  }

  lemma OneRound(gs: seq<Grafana>, s: Import, cr: Dashboard, lib: Library, text: string, n: nat, f: Faults, newId: int)
    requires MatchingOk(gs, cr) && Delivers(cr, text) && n < |cr.matching| && RoundState(gs, s, cr, lib, text, n)
    requires QuietAt(f, cr.matching[n])
    ensures var s' := ImportOne(s, cr.matching[n], cr.json, f, newId, lib);
            && RoundState(gs, s', cr, lib, text, n + 1)
            && (s'.ok <==> s.ok && Satisfied(gs, cr, lib, text, n))
  {
    Turn(gs, s, cr, lib, text, n, f, newId);
    TurnedState(gs, s, ImportOne(s, cr.matching[n], cr.json, f, newId, lib), cr, lib, text, n);
  }

  lemma TurnedState(gs: seq<Grafana>, s: Import, s': Import, cr: Dashboard, lib: Library, text: string, n: nat)
    requires MatchingOk(gs, cr) && n < |cr.matching| && RoundState(gs, s, cr, lib, text, n)
    requires Turned(gs, s, s', cr, lib, text, n) && s.gs[cr.matching[n]] == gs[cr.matching[n]]
    ensures RoundState(gs, s', cr, lib, text, n + 1) && (s'.ok <==> s.ok && Satisfied(gs, cr, lib, text, n))
  {
    OneMore(gs, cr, lib, text, n);
    TurnedInstances(gs, s, s', cr, lib, text, n);
  }

  lemma TurnedInstances(gs: seq<Grafana>, s: Import, s': Import, cr: Dashboard, lib: Library, text: string, n: nat)
    requires MatchingOk(gs, cr) && n < |cr.matching| && RoundState(gs, s, cr, lib, text, n)
    requires Turned(gs, s, s', cr, lib, text, n) && s.gs[cr.matching[n]] == gs[cr.matching[n]]
    ensures |s'.gs| == |gs| && forall i: nat | i < |gs| && i !in cr.matching[..n + 1] :: s'.gs[i] == gs[i]
    ensures forall m: nat | m < n + 1 :: AfterImport(gs, s'.gs, cr, lib, text, m)
  {
    var i := cr.matching[n];
    assert cr.matching[..n + 1] == cr.matching[..n] + [i];
    assert forall j | 0 <= j < |gs| && j != i :: s'.gs[j] == s.gs[j];
    assert AfterImport(gs, s'.gs, cr, lib, text, n);
    forall m: nat | m < n ensures AfterImport(gs, s'.gs, cr, lib, text, m) {
      assert AfterImport(gs, s.gs, cr, lib, text, m);
    }
  }

  predicate SatisfiedFrom(gs: seq<Grafana>, cr: Dashboard, lib: Library, text: string, n: nat)
    requires MatchingOk(gs, cr)
  {
    forall m: nat | n <= m < |cr.matching| :: Satisfied(gs, cr, lib, text, m)
  }

  lemma SatisfiedOnce(gs: seq<Grafana>, cr: Dashboard, lib: Library, text: string, n: nat)
    requires MatchingOk(gs, cr) && n < |cr.matching|
    ensures SatisfiedFrom(gs, cr, lib, text, n)
            <==> Satisfied(gs, cr, lib, text, n) && SatisfiedFrom(gs, cr, lib, text, n + 1)
  {
  }

  lemma {:induction false} Rounds(gs: seq<Grafana>, s: Import, cr: Dashboard, lib: Library, text: string, n: nat,
                                  f: Faults, newIds: nat -> int)
    requires MatchingOk(gs, cr) && Delivers(cr, text) && n <= |cr.matching| && RoundState(gs, s, cr, lib, text, n)
    requires forall m: nat | n <= m < |cr.matching| :: QuietAt(f, cr.matching[m])
    ensures var r := ImportFrom(s, cr.matching, n, cr.json, f, newIds, lib);
            && RoundState(gs, r, cr, lib, text, |cr.matching|)
            && (r.ok <==> s.ok && SatisfiedFrom(gs, cr, lib, text, n))
    decreases |cr.matching| - n
  {
    if n < |cr.matching| {
      var i := cr.matching[n];
      SatisfiedOnce(gs, cr, lib, text, n);
      OneRound(gs, s, cr, lib, text, n, f, newIds(i));
      Rounds(gs, ImportOne(s, i, cr.json, f, newIds(i), lib), cr, lib, text, n + 1, f, newIds);
    }
  }

  lemma BeforeRounds(gs: seq<Grafana>, cr: Dashboard, lib: Library, text: string)
    requires MatchingOk(gs, cr)
    ensures RoundState(gs, Import(gs, cr, cr.hash, true), cr, lib, text, 0)
  {
  }

  /** MAIN: the exact write set of a fault-free reconcile, for every kind of source, for a changed
      and an unchanged text, whether or not status updates copy the stored resource back. The
      text goes to the targets that are neither skipped nor blocked; no other instance changes in
      any way. The hash is saved as soon as there is a target. */
  lemma WriteSet(gs: seq<Grafana>, cr: Dashboard, newIds: nat -> int, lib: Library, text: string)
    requires MatchingOk(gs, cr) && Delivers(cr, text)
    ensures var r := Imported(gs, cr, NoFaults(), newIds, lib);
            && (forall i: nat | i < |gs| && i !in cr.matching :: r.gs[i] == gs[i])
            && (forall m: nat | m < |cr.matching| :: AfterImport(gs, r.gs, cr, lib, text, m))
            && r.hash == if lib.parses(text) && TargetBefore(gs, cr, |cr.matching|) then lib.sha(text) else cr.hash
  {
    BeforeRounds(gs, cr, lib, text);
    Rounds(gs, Import(gs, cr, cr.hash, true), cr, lib, text, 0, NoFaults(), newIds);
    assert cr.matching[..|cr.matching|] == cr.matching;
  }

  /** MAIN: where folders are sound, every instance that receives the dashboard has it in the general
      folder if no title is requested, and else in the one folder with this title: the old one where
      there was one. */
  lemma ImportedIntoFolder(gs: seq<Grafana>, cr: Dashboard, newIds: nat -> int, lib: Library, text: string, m: nat)
    requires MatchingOk(gs, cr) && Delivers(cr, text) && m < |cr.matching| && Receives(gs, cr, lib, text, m)
    requires FolderInv(gs[cr.matching[m]])
    ensures var g, h := gs[cr.matching[m]], Imported(gs, cr, NoFaults(), newIds, lib).gs[cr.matching[m]];
            && cr.uid in h.dashes
            && var id := h.dashes[cr.uid].folder;
               && (cr.folderTitle == "" ==> id == 0)
               && (cr.folderTitle != "" ==> Folder(id, cr.folderTitle) in h.folders)
               && (cr.folderTitle != "" ==> forall x | x in g.folders && x.title == cr.folderTitle ::
                                              x.id == id && h.folders == g.folders)
  {
    WriteSet(gs, cr, newIds, lib, text);
    assert AfterImport(gs, Imported(gs, cr, NoFaults(), newIds, lib).gs, cr, lib, text, m);
    var g := gs[cr.matching[m]];
    forall x, y | x in g.folders && y in g.folders && x.title == y.title ensures x == y {
      var a :| 0 <= a < |g.folders| && g.folders[a] == x;
      var b :| 0 <= b < |g.folders| && g.folders[b] == y;
    }
  }

  /** MAIN: the exact condition for a fault-free reconcile to succeed everywhere: no eligible
      instance is unready or refuses plugins, none is blocked, and the text is valid wherever it is
      not skipped. */
  lemma SucceedsIff(gs: seq<Grafana>, cr: Dashboard, newIds: nat -> int, lib: Library, text: string)
    requires MatchingOk(gs, cr) && Delivers(cr, text)
    ensures Imported(gs, cr, NoFaults(), newIds, lib).ok
            <==> forall m: nat | m < |cr.matching| :: Satisfied(gs, cr, lib, text, m)
  {
    BeforeRounds(gs, cr, lib, text);
    Rounds(gs, Import(gs, cr, cr.hash, true), cr, lib, text, 0, NoFaults(), newIds);
  }

  // Success under failing calls

  /** The m-th matching instance is not eligible, or it takes part and no call made for it fails. */
  ghost predicate Served(gs: seq<Grafana>, cr: Dashboard, lib: Library, text: string, m: nat, f: Faults)
    requires MatchingOk(gs, cr) && m < |cr.matching|
  {
    var i := cr.matching[m];
    Eligible(gs[i], cr) ==>
      && Target(gs, cr, m) && (gs[i].external || f(i, ReconcilePlugins) == NoFault)
      && f(i, NewClient) == NoFault && f(i, ListDashboards) == NoFault
      && (Receives(gs, cr, lib, text, m) ==> WriteUndisturbed(gs[i], cr, i, f))
  }

  ghost predicate WriteUndisturbed(g: Grafana, cr: Dashboard, i: nat, f: Faults) {
    && f(i, NewDashboard) == NoFault && f(i, SaveInstance) == NoFault && f(i, SaveResource) == NoFault
    && (cr.folderTitle != "" ==>
          f(i, ListFolders) == NoFault && (!HasTitle(g.folders, cr.folderTitle) ==> f(i, NewFolder) == NoFault))
  }

  lemma WrittenOk(g: Grafana, mem: Dashboard, stored: string, hash: string, i: nat, f: Faults, newId: int, lib: Library)
    requires Written(g, mem, stored, hash, i, f, newId, lib).ok
    ensures Written(g, mem, stored, hash, i, f, newId, lib) == Written(g, mem, stored, hash, i, NoFaults(), newId, lib)
    ensures WriteUndisturbed(g, mem, i, f)
  {
    FolderNamedIs(g.folders, mem.folderTitle);
  }

  lemma CreatedOk(g: Grafana, mem: Dashboard, stored: string, hash: string, i: nat, f: Faults, newId: int, lib: Library)
    requires CreatedOn(g, mem, stored, hash, i, f, newId, lib).ok
    ensures CreatedOn(g, mem, stored, hash, i, f, newId, lib) == CreatedOn(g, mem, stored, hash, i, NoFaults(), newId, lib)
    ensures f(i, NewClient) == NoFault && f(i, ListDashboards) == NoFault && !Refuses(g, mem) && Resolved(mem).Ok?
    ensures var text := Resolved(mem).value;
            !(mem.uid in g.dashes && lib.sha(text) == mem.hash) ==> lib.parses(text) && WriteUndisturbed(g, mem, i, f)
  {
    var text := Resolved(mem).value;
    if !(mem.uid in g.dashes && lib.sha(text) == mem.hash) {
      WrittenOk(g, mem.(json := text), stored, hash, i, f, newId, lib);
    }
  }

  lemma OkRound(gs: seq<Grafana>, s: Import, cr: Dashboard, lib: Library, text: string, n: nat, f: Faults, newId: int)
    requires MatchingOk(gs, cr) && Delivers(cr, text) && n < |cr.matching| && RoundState(gs, s, cr, lib, text, n)
    requires ImportOne(s, cr.matching[n], cr.json, f, newId, lib).ok
    ensures s.ok && Served(gs, cr, lib, text, n, f)
  {
    var i := cr.matching[n];
    assert i !in cr.matching[..n];
    if Eligible(gs[i], cr) {
      CreatedOk(s.gs[i], s.cr, cr.json, s.hash, i, f, newId, lib);
      ResolvedBetween(cr, s.cr, text);
    }
  }

  lemma {:induction false} OkRounds(gs: seq<Grafana>, s: Import, cr: Dashboard, lib: Library, text: string, n: nat,
                                    f: Faults, newIds: nat -> int)
    requires MatchingOk(gs, cr) && Delivers(cr, text) && n <= |cr.matching| && RoundState(gs, s, cr, lib, text, n)
    requires ImportFrom(s, cr.matching, n, cr.json, f, newIds, lib).ok
    ensures ServedFrom(gs, cr, lib, text, n, f)
    decreases |cr.matching| - n
  {
    if n < |cr.matching| {
      var s' := ImportOne(s, cr.matching[n], cr.json, f, newIds(cr.matching[n]), lib);
      OkContinues(s', cr, n + 1, f, newIds, lib);
      OkOneRound(gs, s, cr, lib, text, n, f, newIds(cr.matching[n]));
      OkRounds(gs, s', cr, lib, text, n + 1, f, newIds);
    }
  }

  lemma SameRound(s: Import, stored: string, i: nat, f: Faults, newId: int, lib: Library)
    requires i < |s.gs| && ImportOne(s, i, stored, f, newId, lib).ok
    ensures ImportOne(s, i, stored, f, newId, lib) == ImportOne(s, i, stored, NoFaults(), newId, lib)
  {
    if Eligible(s.gs[i], s.cr) {
      CreatedOk(s.gs[i], s.cr, stored, s.hash, i, f, newId, lib);
    }
  }

  lemma {:induction false} SameRounds(s: Import, cr: Dashboard, n: nat, f: Faults, newIds: nat -> int, lib: Library)
    requires MatchingOk(s.gs, cr) && n <= |cr.matching|
    requires ImportFrom(s, cr.matching, n, cr.json, f, newIds, lib).ok
    ensures ImportFrom(s, cr.matching, n, cr.json, f, newIds, lib)
         == ImportFrom(s, cr.matching, n, cr.json, NoFaults(), newIds, lib)
    decreases |cr.matching| - n
  {
    if n < |cr.matching| {
      var s' := ImportOne(s, cr.matching[n], cr.json, f, newIds(cr.matching[n]), lib);
      OkContinues(s', cr, n + 1, f, newIds, lib);
      SameRound(s, cr.json, cr.matching[n], f, newIds(cr.matching[n]), lib);
      SameRounds(s', cr, n + 1, f, newIds, lib);
    }
  }

  ghost predicate ServedFrom(gs: seq<Grafana>, cr: Dashboard, lib: Library, text: string, n: nat, f: Faults)
    requires MatchingOk(gs, cr)
  {
    forall m: nat | n <= m < |cr.matching| :: Served(gs, cr, lib, text, m, f)
  }

  lemma OkOneRound(gs: seq<Grafana>, s: Import, cr: Dashboard, lib: Library, text: string, n: nat, f: Faults, newId: int)
    requires MatchingOk(gs, cr) && Delivers(cr, text) && n < |cr.matching| && RoundState(gs, s, cr, lib, text, n)
    requires ImportOne(s, cr.matching[n], cr.json, f, newId, lib).ok
    ensures ServedFrom(gs, cr, lib, text, n + 1, f) ==> ServedFrom(gs, cr, lib, text, n, f)
    ensures RoundState(gs, ImportOne(s, cr.matching[n], cr.json, f, newId, lib), cr, lib, text, n + 1)
  {
    OkRound(gs, s, cr, lib, text, n, f, newId);
    SameRound(s, cr.json, cr.matching[n], f, newId, lib);
    OneRound(gs, s, cr, lib, text, n, NoFaults(), newId);
  }

  /** A failed round is not forgotten. */
  lemma {:induction false} OkContinues(s: Import, cr: Dashboard, n: nat, f: Faults, newIds: nat -> int, lib: Library)
    requires MatchingOk(s.gs, cr) && n <= |cr.matching|
    ensures ImportFrom(s, cr.matching, n, cr.json, f, newIds, lib).ok ==> s.ok
    decreases |cr.matching| - n
  {
    if n < |cr.matching| {
      OkContinues(ImportOne(s, cr.matching[n], cr.json, f, newIds(cr.matching[n]), lib), cr, n + 1, f, newIds, lib);
    }
  }

  /** MAIN: whatever calls fail, a reconcile that reports success has had no failing call and no instance
      left out, and has done exactly what the fault-free one does. */
  lemma SuccessMeansFaultFree(gs: seq<Grafana>, cr: Dashboard, f: Faults, newIds: nat -> int, lib: Library, text: string)
    requires MatchingOk(gs, cr) && Delivers(cr, text) && Imported(gs, cr, f, newIds, lib).ok
    ensures Imported(gs, cr, f, newIds, lib) == Imported(gs, cr, NoFaults(), newIds, lib)
    ensures f(0, ListInstances) == NoFault && forall m: nat | m < |cr.matching| :: Served(gs, cr, lib, text, m, f)
  {
    BeforeRounds(gs, cr, lib, text);
    OkRounds(gs, Import(gs, cr, cr.hash, true), cr, lib, text, 0, f, newIds);
    SameRounds(Import(gs, cr, cr.hash, true), cr, 0, f, newIds, lib);
  }

  // Who is left alone, and what a source is

  lemma {:induction false} LeftAloneFrom(s: Import, cr: Dashboard, n: nat, f: Faults, newIds: nat -> int, lib: Library,
                                         i: nat)
    requires MatchingOk(s.gs, cr) && n <= |cr.matching| && i < |s.gs| && SameResource(cr, s.cr)
    requires var g := s.gs[i]; (g.ns != cr.key.ns && !cr.allowCross) || !g.ready || (g.external && cr.plugins)
    ensures ImportFrom(s, cr.matching, n, cr.json, f, newIds, lib).gs[i] == s.gs[i]
    decreases |cr.matching| - n
  {
    if n < |cr.matching| {
      var j := cr.matching[n];
      RoundKeepsRest(s, j, cr.json, f, newIds(j), lib);
      LeftAloneFrom(ImportOne(s, j, cr.json, f, newIds(j), lib), cr, n + 1, f, newIds, lib, i);
    }
  }

  /** MAIN: whatever fails, an import does not touch an instance in another namespace without permission,
      one that is not ready, or an external one if plugins are requested. */
  lemma LeftAlone(gs: seq<Grafana>, cr: Dashboard, f: Faults, newIds: nat -> int, lib: Library, i: nat)
    requires MatchingOk(gs, cr) && i < |gs|
    requires var g := gs[i]; (g.ns != cr.key.ns && !cr.allowCross) || !g.ready || (g.external && cr.plugins)
    ensures Imported(gs, cr, f, newIds, lib).gs[i] == gs[i]
  {
    LeftAloneFrom(Import(gs, cr, cr.hash, true), cr, 0, f, newIds, lib, i);
  }

  /** And every other matching instance without the dashboard gets it, if it is raw JSON. */
  lemma NewDashboardArrives(gs: seq<Grafana>, cr: Dashboard, newIds: nat -> int, lib: Library, text: string, m: nat)
    requires MatchingOk(gs, cr) && m < |cr.matching| && cr.json != "" && cr.others == [] && lib.parses(text) && text != ""
    requires Resolve(cr.mappings, cr.json) == Ok(text) == Resolve(cr.mappings, text)
    requires var g := gs[cr.matching[m]];
             (g.ns == cr.key.ns || cr.allowCross) && g.ready && !(g.external && cr.plugins) && cr.uid !in g.dashes
    ensures var h := Imported(gs, cr, NoFaults(), newIds, lib).gs[cr.matching[m]];
            UpToDate(h, cr, text) && Lists(h, cr)
  {
    WriteSet(gs, cr, newIds, lib, text);
    assert AfterImport(gs, Imported(gs, cr, NoFaults(), newIds, lib).gs, cr, lib, text, m);
    AddedKeeps(gs[cr.matching[m]].status, cr.key, cr.uid);
  }

  /** A text is fetched exactly if one source is configured, and it delivers. */
  lemma FetchedIff(cr: Dashboard, json: string)
    ensures Fetched(cr) == Ok(json) <==>
              || (cr.json == json != "" && cr.others == [])
              || (cr.json == "" && cr.others == [Ok(json)])
  {
    if cr.json == "" && cr.others != [] {
      assert |cr.others| == 1 ==> cr.others == [cr.others[0]];
    }
  }

  /** MAIN: for a URL, gzip or Jsonnet source with a valid text this means: every eligible instance
      is ready, and among two targets the earlier one was written, not skipped, by a status update
      that copies the stored resource back. */
  lemma RemoteSucceedsIff(gs: seq<Grafana>, cr: Dashboard, newIds: nat -> int, lib: Library, text: string)
    requires MatchingOk(gs, cr) && Delivers(cr, text) && !IsRaw(cr) && text != "" && lib.parses(text)
    requires forall m: nat | m < |cr.matching| :: !Refuses(gs[cr.matching[m]], cr)
    ensures Imported(gs, cr, NoFaults(), newIds, lib).ok <==>
              && (forall m: nat | m < |cr.matching| && Eligible(gs[cr.matching[m]], cr) :: gs[cr.matching[m]].ready)
              && (forall a: nat, b: nat | a < b < |cr.matching| && Target(gs, cr, a) && Target(gs, cr, b) ::
                    lib.refresh && !(cr.uid in gs[cr.matching[a]].dashes
                                     && (lib.sha(text) == cr.hash || TargetBefore(gs, cr, a))))
  {
    SucceedsIff(gs, cr, newIds, lib, text);
    AllSatisfiedIff(gs, cr, lib, text);
    assert forall a: nat | a < |cr.matching| && Target(gs, cr, a) ::
        Fills(gs, cr, lib, text, a) <==> !lib.refresh || Skipped(gs, cr, lib, text, a);
  }

  lemma AllSatisfiedIff(gs: seq<Grafana>, cr: Dashboard, lib: Library, text: string)
    requires MatchingOk(gs, cr) && !IsRaw(cr) && text != "" && lib.parses(text)
    requires forall m: nat | m < |cr.matching| :: !Refuses(gs[cr.matching[m]], cr)
    ensures (forall m: nat | m < |cr.matching| :: Satisfied(gs, cr, lib, text, m)) <==>
              && (forall m: nat | m < |cr.matching| && Eligible(gs[cr.matching[m]], cr) :: gs[cr.matching[m]].ready)
              && (forall a: nat, b: nat | a < b < |cr.matching| && Target(gs, cr, a) && Target(gs, cr, b) ::
                    !Fills(gs, cr, lib, text, a))
  {
    forall m: nat | m < |cr.matching|
      ensures Satisfied(gs, cr, lib, text, m) <==>
                (Eligible(gs[cr.matching[m]], cr) ==> gs[cr.matching[m]].ready && !Blocked(gs, cr, lib, text, m))
    {
    }
    NoneBlockedIff(gs, cr, lib, text);
  }

  lemma NoneBlockedIff(gs: seq<Grafana>, cr: Dashboard, lib: Library, text: string)
    requires MatchingOk(gs, cr) && !IsRaw(cr) && text != ""
    ensures (forall m: nat | m < |cr.matching| && Target(gs, cr, m) :: !Blocked(gs, cr, lib, text, m)) <==>
            (forall a: nat, b: nat | a < b < |cr.matching| && Target(gs, cr, a) && Target(gs, cr, b) ::
               !Fills(gs, cr, lib, text, a))
  {
    if a: nat, b: nat :| a < b < |cr.matching| && Target(gs, cr, a) && Target(gs, cr, b)
                         && Fills(gs, cr, lib, text, a) {
      assert Blocked(gs, cr, lib, text, b);
    }
  }

  /** MAIN: the exact condition under which every target has the new text afterwards: those that are
      skipped, blocked or given an invalid text must already hold it. */
  lemma AllUpToDateIff(gs: seq<Grafana>, cr: Dashboard, newIds: nat -> int, lib: Library, text: string)
    requires MatchingOk(gs, cr) && Delivers(cr, text)
    ensures var r := Imported(gs, cr, NoFaults(), newIds, lib);
            (forall m: nat | m < |cr.matching| && Target(gs, cr, m) :: UpToDate(r.gs[cr.matching[m]], cr, text))
            <==>
            (forall m: nat | m < |cr.matching| && Target(gs, cr, m) && !Receives(gs, cr, lib, text, m) ::
               UpToDate(gs[cr.matching[m]], cr, text))
  {
    WriteSet(gs, cr, newIds, lib, text);
    var r := Imported(gs, cr, NoFaults(), newIds, lib);
    forall m: nat | m < |cr.matching| && Target(gs, cr, m)
      ensures UpToDate(r.gs[cr.matching[m]], cr, text) <==>
              (Receives(gs, cr, lib, text, m) || UpToDate(gs[cr.matching[m]], cr, text))
    {
      assert AfterImport(gs, r.gs, cr, lib, text, m);
    }
  }

  /** MAIN: for changed raw JSON: each later target that already holds the uid must already hold this
      very text. With two old copies the second one stays old, although the saved hash says the
      dashboard is up to date. */
  lemma RawUpToDateIff(gs: seq<Grafana>, cr: Dashboard, newIds: nat -> int, lib: Library, text: string)
    requires MatchingOk(gs, cr) && Delivers(cr, text) && IsRaw(cr) && lib.parses(text) && lib.sha(text) != cr.hash
    ensures var r := Imported(gs, cr, NoFaults(), newIds, lib);
            (forall m: nat | m < |cr.matching| && Target(gs, cr, m) :: UpToDate(r.gs[cr.matching[m]], cr, text))
            <==>
            (forall a: nat, b: nat | a < b < |cr.matching| && Target(gs, cr, a) && Target(gs, cr, b)
                                     && cr.uid in gs[cr.matching[b]].dashes :: UpToDate(gs[cr.matching[b]], cr, text))
  {
    AllUpToDateIff(gs, cr, newIds, lib, text);
    forall m: nat | m < |cr.matching| && Target(gs, cr, m)
      ensures Receives(gs, cr, lib, text, m) <==>
              cr.uid !in gs[cr.matching[m]].dashes || !TargetBefore(gs, cr, m)
    {
    }
  }

  predicate Lists(g: Grafana, cr: Dashboard) { Print(cr.key, cr.uid) in g.status }

  /** MAIN: the exact condition under which every target lists the resource after a fault-free
      reconcile: those that receive nothing must already list it. */
  lemma AllListedIff(gs: seq<Grafana>, cr: Dashboard, newIds: nat -> int, lib: Library, text: string)
    requires MatchingOk(gs, cr) && Delivers(cr, text)
    ensures var r := Imported(gs, cr, NoFaults(), newIds, lib);
            (forall m: nat | m < |cr.matching| && Target(gs, cr, m) :: Lists(r.gs[cr.matching[m]], cr))
            <==>
            (forall m: nat | m < |cr.matching| && Target(gs, cr, m) && !Receives(gs, cr, lib, text, m) ::
               Lists(gs[cr.matching[m]], cr))
  {
    WriteSet(gs, cr, newIds, lib, text);
    var r := Imported(gs, cr, NoFaults(), newIds, lib);
    forall m: nat | m < |cr.matching| && Target(gs, cr, m)
      ensures Lists(r.gs[cr.matching[m]], cr) <==>
              (Receives(gs, cr, lib, text, m) || Lists(gs[cr.matching[m]], cr))
    {
      assert AfterImport(gs, r.gs, cr, lib, text, m);
      AddedKeeps(gs[cr.matching[m]].status, cr.key, cr.uid);
    }
  }

  /** MAIN: a dashboard from a URL, gzip or Jsonnet source that is unchanged and present in its
      first target blocks all later ones: the first round fills Spec.Json in memory, so every
      later round finds two sources. The reconcile fails and no instance gets the dashboard, on
      every attempt. */
  lemma UnchangedRemoteSourceBlocksRest(gs: seq<Grafana>, cr: Dashboard, newIds: nat -> int, lib: Library,
                                        a: nat, b: nat, text: string)
    requires MatchingOk(gs, cr) && a < b < |cr.matching| && Delivers(cr, text) && !IsRaw(cr) && text != ""
    requires Target(gs, cr, a) && Target(gs, cr, b) && !TargetBefore(gs, cr, a)
    requires lib.sha(text) == cr.hash && cr.uid in gs[cr.matching[a]].dashes
    ensures var r := Imported(gs, cr, NoFaults(), newIds, lib); r.gs == gs && r.hash == cr.hash && !r.ok
  {
    WriteSet(gs, cr, newIds, lib, text);
    SucceedsIff(gs, cr, newIds, lib, text);
    assert Skipped(gs, cr, lib, text, a) && Fills(gs, cr, lib, text, a);
    forall m: nat | m < |cr.matching| ensures !Receives(gs, cr, lib, text, m) {
      assert m > a ==> Blocked(gs, cr, lib, text, m);
    }
    var r := Imported(gs, cr, NoFaults(), newIds, lib);
    forall i: nat | i < |gs| ensures r.gs[i] == gs[i] {
      if i in cr.matching {
        var m: nat :| m < |cr.matching| && cr.matching[m] == i;
        assert AfterImport(gs, r.gs, cr, lib, text, m);
      }
    }
    assert Blocked(gs, cr, lib, text, b) && !Satisfied(gs, cr, lib, text, b);
  }
}
