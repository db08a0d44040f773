/** What the dashboard controller acts on: Grafana instances with their saved status, the
    Grafana servers behind them, dashboard resources, and calls that may fail. */
module Cluster {
  import opened Wrappers
  import opened Resources
  import opened Inputs

  datatype Folder = Folder(id: int, title: string)

  /** A dashboard held by a Grafana server; folder 0 is the general folder. */
  datatype Dash = Dash(folder: int, body: string)

  datatype Grafana = Grafana(
    ns: string,
    ready: bool,                 // stage complete, status success
    external: bool,
    status: seq<string>,         // the saved Status.Dashboards
    dashes: map<string, Dash>,   // the server's dashboards by uid
    folders: seq<Folder>         // the server's folders in listing order
  )

  /** The GrafanaDashboard resource. */
  datatype Dashboard = Dashboard(
    key: Key,
    uid: string,
    json: string,                     // Spec.Json
    others: seq<Result<string>>,      // what the other configured sources deliver
    mappings: seq<Mapping>,           // Spec.Datasources
    folderTitle: string,
    plugins: bool,                    // Spec.Plugins is set
    allowCross: bool,                 // cross-namespace import is allowed
    matching: seq<nat>,               // the instances its selector picks
    hash: string                      // Status.Hash
  )

  /** Calls to the Kubernetes API and to a Grafana server. */
  datatype Call =
    | ListInstances | ListResources | NewClient | DeleteEntry(n: nat) | SaveInstance
    | GetDashboard | DeleteDashboard | ListDashboards | GetFolder | DeleteFolder
    | ReconcilePlugins | ListFolders | NewFolder | NewDashboard | SaveResource

  /** A call works, fails without effect, or takes effect although the caller sees an error.
      The last two also describe an operator that stops around the call. */
  datatype Fault = NoFault | Lost | Applied

  /** Which calls fail during one run, by instance. Each call occurs at most once per instance. */
  type Faults = (nat, Call) -> Fault

  function NoFaults(): Faults { (i, c) => NoFault }

  /** Library behaviour: SHA-256 in hexadecimal, JSON validity, and whether a status update
      copies the stored resource back into the caller's object. */
  datatype Library = Library(sha: string -> string, parses: string -> bool, refresh: bool)

  function DropDash(g: Grafana, uid: string): Grafana {
    g.(dashes := g.dashes - {uid})
  }

  function Others(folders: seq<Folder>, id: int): seq<Folder> {
    if folders == [] then []
    else if folders[0].id == id then Others(folders[1..], id)
    else [folders[0]] + Others(folders[1..], id)
  }

  /** Deleting a folder takes the dashboards in it along. */
  function DropFolder(g: Grafana, id: int): Grafana {
    g.(folders := Others(g.folders, id),
       dashes := map u | u in g.dashes && g.dashes[u].folder != id :: g.dashes[u])
  }

  predicate InUse(g: Grafana, id: int) {
    exists u | u in g.dashes :: g.dashes[u].folder == id
  }

  predicate HasFolder(folders: seq<Folder>, id: int) {
    exists f | f in folders :: f.id == id
  }

  /** The id of the first folder with this title, 0 if there is none. */
  function FolderNamed(folders: seq<Folder>, title: string): int {
    if folders == [] then 0
    else if folders[0].title == title then folders[0].id
    else FolderNamed(folders[1..], title)
  }
}
