/** Plugin lists: what dashboards and datasources request, and the one list that is installed
    (api/v1beta1/plugin_list.go, controllers/controller_shared.go,
    controllers/reconcilers/grafana/plugins_reconciler.go). */
module Plugins {
  import opened Wrappers
  import opened Strings
  import opened SemVer

  datatype Plugin = Plugin(name: string, version: string)

  /** `semver.Parse`, which `semver.Make` is another name for. */
  type Parser = string -> Option<Version>

  predicate HasName(list: seq<Plugin>, name: string) {
    exists q | q in list :: q.name == name
  }

  method HasSomeVersionOf(list: seq<Plugin>, plugin: Plugin) returns (found: bool)
    ensures found == HasName(list, plugin.name)
  {
    for i := 0 to |list|
      invariant forall j | 0 <= j < i :: list[j].name != plugin.name
    {
      if list[i].name == plugin.name {
        assert list[i] in list;
        return true;
      }
    }
    return false;
  }

  method HasExactVersionOf(list: seq<Plugin>, plugin: Plugin) returns (found: bool)
    ensures found == (plugin in list)
  {
    for i := 0 to |list|
      invariant plugin !in list[..i]
    {
      assert list[..i + 1] == list[..i] + [list[i]];
      if list[i].name == plugin.name && list[i].version == plugin.version {
        return true;
      }
    }
    assert list[..|list|] == list;
    return false;
  }

  /** Whether an entry of the same name is newer; an error once a version does not parse. */
  function Newer(list: seq<Plugin>, plugin: Plugin, parse: Parser): Result<bool> {
    if list == [] then Ok(false)
    else if list[0].name != plugin.name then Newer(list[1..], plugin, parse)
    else if parse(list[0].version).None? || parse(plugin.version).None? then Err("invalid version")
    else if Compare(parse(list[0].version).value, parse(plugin.version).value) == 1 then Ok(true)
    else Newer(list[1..], plugin, parse)
  }

  method HasNewerVersionOf(list: seq<Plugin>, plugin: Plugin, parse: Parser) returns (newer: Result<bool>)
    ensures newer == Newer(list, plugin, parse)
  {
    for i := 0 to |list|
      invariant Newer(list[i..], plugin, parse) == Newer(list, plugin, parse)
    {
      assert list[i..][1..] == list[i + 1..];
      if list[i].name != plugin.name {
        continue;
      }
      var listedVersion := parse(list[i].version);
      if listedVersion.None? {
        return Err("invalid version");
      }
      var requestedVersion := parse(plugin.version);
      if requestedVersion.None? {
        return Err("invalid version");
      }
      if Compare(listedVersion.value, requestedVersion.value) == 1 {
        return Ok(true);
      }
    }
    return Ok(false);
  }

  /** The first entry of the name with the new version: what the comment on Update promises. */
  function Upgraded(list: seq<Plugin>, plugin: Plugin): seq<Plugin> {
    if list == [] then []
    else if list[0].name == plugin.name then [list[0].(version := plugin.version)] + list[1..]
    else [list[0]] + Upgraded(list[1..], plugin)
  }

  /** Update as written: the loop variable is a copy, so the list does not change. */
  method Update(list: seq<Plugin>, plugin: Plugin) returns (updated: seq<Plugin>)
    ensures updated == list
  {
    updated := list;
    for i := 0 to |list|
      invariant updated == list
    {
      var installedPlugin := list[i];
      if installedPlugin.name == plugin.name {
        installedPlugin := installedPlugin.(version := plugin.version);
        break;
      }
    }
  }

  /** Update as intended: writing into the list. */
  method UpdateInPlace(list: seq<Plugin>, plugin: Plugin) returns (updated: seq<Plugin>)
    ensures updated == Upgraded(list, plugin)
  {
    updated := list;
    for i := 0 to |list|
      invariant updated == list && forall j | 0 <= j < i :: list[j].name != plugin.name
    {
      if list[i].name == plugin.name {
        UpgradedAt(list, plugin, i);
        updated := updated[i := list[i].(version := plugin.version)];
        return;
      }
    }
    UpgradedNone(list, plugin);
  }

  lemma {:induction false} UpgradedNone(list: seq<Plugin>, plugin: Plugin)
    requires forall j | 0 <= j < |list| :: list[j].name != plugin.name
    ensures Upgraded(list, plugin) == list
  {
    if list != [] {
      UpgradedNone(list[1..], plugin);
    }
  }

  /** One request joins the list. `inPlace` selects the intended Update. */
  function Join(list: seq<Plugin>, plugin: Plugin, parse: Parser, inPlace: bool): Result<seq<Plugin>> {
    if !HasName(list, plugin.name) then Ok(list + [plugin])
    else match Newer(list, plugin, parse)
      case Err(e) => Err(e)
      case Ok(newer) =>
        Ok(if newer || plugin in list || !inPlace then list else Upgraded(list, plugin))
  }

  function JoinAll(list: seq<Plugin>, plugins: seq<Plugin>, parse: Parser, inPlace: bool): Result<seq<Plugin>>
    decreases |plugins|
  {
    if plugins == [] then Ok(list)
    else match Join(list, plugins[0], parse, inPlace)
      case Err(e) => Err(e)
      case Ok(joined) => JoinAll(joined, plugins[1..], parse, inPlace)
  }

  /** The requests stored in the config map, in the order Go's map iteration visits its keys. */
  function Requests(order: seq<string>, store: map<string, seq<Plugin>>): seq<Plugin>
    requires forall k | k in order :: k in store
  {
    if order == [] then [] else store[order[0]] + Requests(order[1..], store)
  }

  method JoinList(list: seq<Plugin>, plugins: seq<Plugin>, parse: Parser, inPlace: bool)
    returns (result: Result<seq<Plugin>>)
    ensures result == JoinAll(list, plugins, parse, inPlace)
  {
    var consolidated := list;
    for i := 0 to |plugins|
      invariant JoinAll(consolidated, plugins[i..], parse, inPlace) == JoinAll(list, plugins, parse, inPlace)
    {
      var plugin := plugins[i];
      assert plugins[i..][1..] == plugins[i + 1..];
      var some := HasSomeVersionOf(consolidated, plugin);
      if !some {
        consolidated := consolidated + [plugin];
        continue;
      }
      var newer := HasNewerVersionOf(consolidated, plugin, parse);
      if newer.Err? {
        return Err(newer.message);
      }
      if newer.value {
        continue;
      }
      var exact := HasExactVersionOf(consolidated, plugin);
      if exact {
        continue;
      }
      if inPlace {
        consolidated := UpdateInPlace(consolidated, plugin);
      } else {
        consolidated := Update(consolidated, plugin);
      }
    }
    return Ok(consolidated);
  }

  /** The consolidation loop of the plugins reconciler. */
  method Consolidate(store: map<string, seq<Plugin>>, order: seq<string>, parse: Parser, inPlace: bool)
    returns (result: Result<seq<Plugin>>)
    requires IsOrder(order, store.Keys)
    ensures result == JoinAll([], Requests(order, store), parse, inPlace)
  {
    result := Ok([]);
    for i := 0 to |order|
      invariant result.Ok?
      invariant JoinAll(result.value, Requests(order[i..], store), parse, inPlace)
             == JoinAll([], Requests(order, store), parse, inPlace)
    {
      assert order[i..][1..] == order[i + 1..];
      JoinAllConcat(result.value, store[order[i]], Requests(order[i + 1..], store), parse, inPlace);
      result := JoinList(result.value, store[order[i]], parse, inPlace);
      if result.Err? {
        return;
      }
    }
  }

  lemma {:induction false} JoinAllConcat(list: seq<Plugin>, a: seq<Plugin>, b: seq<Plugin>, parse: Parser, inPlace: bool)
    ensures JoinAll(list, a + b, parse, inPlace)
         == match JoinAll(list, a, parse, inPlace)
            case Err(e) => Err(e)
            case Ok(joined) => JoinAll(joined, b, parse, inPlace)
    decreases |a|
  {
    if a == [] {
      assert a + b == b;
    } else {
      assert (a + b)[1..] == a[1..] + b;
      match Join(list, a[0], parse, inPlace)
      case Err(_) =>
      case Ok(joined) => JoinAllConcat(joined, a[1..], b, parse, inPlace);
    }
  }

  // The literal code

  predicate UniqueNames(list: seq<Plugin>) {
    forall i, j | 0 <= i < j < |list| :: list[i].name != list[j].name
  }

  /** The first request of each name that is not yet in the list, in order. */
  function FirstSeen(list: seq<Plugin>, plugins: seq<Plugin>): seq<Plugin>
    decreases |plugins|
  {
    if plugins == [] then list
    else FirstSeen(if HasName(list, plugins[0].name) then list else list + [plugins[0]], plugins[1..])
  }

  /** MAIN: as written, consolidation keeps the first version seen of every plugin, whatever
      the versions are. */
  lemma {:induction false} LiteralKeepsFirstSeen(list: seq<Plugin>, plugins: seq<Plugin>, parse: Parser)
    requires JoinAll(list, plugins, parse, false).Ok?
    ensures JoinAll(list, plugins, parse, false).value == FirstSeen(list, plugins)
    decreases |plugins|
  {
    if plugins != [] {
      LiteralKeepsFirstSeen(Join(list, plugins[0], parse, false).value, plugins[1..], parse);
    }
  }

  /** What FirstSeen is: one entry per requested name, each the earliest request of its name. */
  lemma {:induction false} FirstSeenNames(list: seq<Plugin>, plugins: seq<Plugin>)
    requires UniqueNames(list)
    ensures var r := FirstSeen(list, plugins);
            && UniqueNames(r) && list <= r
            && (forall q | q in r :: q in list || q in plugins)
            && (forall n :: HasName(r, n) <==> HasName(list, n) || HasName(plugins, n))
    decreases |plugins|
  {
    if plugins != [] {
      var p, rest := plugins[0], plugins[1..];
      assert forall q :: q in plugins <==> q == p || q in rest;
      var next := if HasName(list, p.name) then list else list + [p];
      NextUnique(list, p);
      assert forall q :: q in next ==> q in list || q == p;
      assert forall q | q in list :: q in next;
      assert HasName(next, p.name) by { if next != list { assert p in next; } }
      assert forall n :: HasName(next, n) <==> HasName(list, n) || n == p.name;
      FirstSeenNames(next, rest);
    }
  }

  lemma NextUnique(list: seq<Plugin>, p: Plugin)
    requires UniqueNames(list)
    ensures UniqueNames(if HasName(list, p.name) then list else list + [p])
  {
    assert forall i | 0 <= i < |list| :: list[i] in list;
  }

  lemma {:induction false} SeenStays(list: seq<Plugin>, plugins: seq<Plugin>, p: Plugin)
    requires p in list
    ensures p in FirstSeen(list, plugins)
    decreases |plugins|
  {
    if plugins != [] {
      SeenStays(if HasName(list, plugins[0].name) then list else list + [plugins[0]], plugins[1..], p);
    }
  }

  lemma {:induction false} EarliestWins(plugins: seq<Plugin>, list: seq<Plugin>, j: nat)
    requires j < |plugins| && !HasName(list, plugins[j].name)
    requires forall i | 0 <= i < j :: plugins[i].name != plugins[j].name
    ensures plugins[j] in FirstSeen(list, plugins)
    decreases |plugins|
  {
    var p, rest := plugins[0], plugins[1..];
    var next := if HasName(list, p.name) then list else list + [p];
    if j == 0 {
      SeenStays(next, rest, p);
    } else {
      assert plugins[j] == rest[j - 1] && !HasName(next, rest[j - 1].name);
      EarliestWins(rest, next, j - 1);
    }
  }

  /** MAIN: for every map order the literal result has one entry per stored name, and the
      version is that of the earliest request in this order. */
  lemma LiteralResult(store: map<string, seq<Plugin>>, order: seq<string>, parse: Parser)
    requires IsOrder(order, store.Keys)
    requires JoinAll([], Requests(order, store), parse, false).Ok?
    ensures var requests := Requests(order, store);
            var r := JoinAll([], requests, parse, false).value;
            && UniqueNames(r)
            && (forall n :: HasName(r, n) <==> StoredName(store, n))
            && (forall j | 0 <= j < |requests| && (forall i | 0 <= i < j :: requests[i].name != requests[j].name) ::
                  requests[j] in r)
  {
    var requests := Requests(order, store);
    LiteralKeepsFirstSeen([], requests, parse);
    FirstSeenNames([], requests);
    RequestNames(order, store);
    forall j | 0 <= j < |requests| && (forall i | 0 <= i < j :: requests[i].name != requests[j].name)
      ensures requests[j] in FirstSeen([], requests)
    {
      EarliestWins(requests, [], j);
    }
  }

  lemma {:induction false} RequestMembers(order: seq<string>, store: map<string, seq<Plugin>>)
    requires forall k | k in order :: k in store
    ensures forall q :: q in Requests(order, store) <==> exists k :: k in order && q in store[k]
  {
    if order != [] {
      RequestMembers(order[1..], store);
      assert forall k :: k in order <==> k == order[0] || k in order[1..];
    }
  }

  // The intended code

  predicate Parses(list: seq<Plugin>, parse: Parser) {
    forall q | q in list :: parse(q.version).Some?
  }

  /** Precedence of the version strings of two plugins. */
  function Precedence(p: Plugin, q: Plugin, parse: Parser): Sign
    requires parse(p.version).Some? && parse(q.version).Some?
  {
    Compare(parse(p.version).value, parse(q.version).value)
  }

  /** No request of `plugins` is newer than the entry of `list` with its name. */
  predicate Dominates(list: seq<Plugin>, plugins: seq<Plugin>, parse: Parser)
    requires Parses(list, parse) && Parses(plugins, parse)
  {
    forall q, p | q in list && p in plugins && q.name == p.name :: Precedence(p, q, parse) <= 0
  }

  lemma {:induction false} NewerThanUnique(list: seq<Plugin>, plugin: Plugin, parse: Parser, j: nat)
    requires UniqueNames(list) && Parses(list, parse) && parse(plugin.version).Some?
    requires j < |list| && list[j].name == plugin.name
    ensures Newer(list, plugin, parse) == Ok(Precedence(list[j], plugin, parse) == 1)
  {
    assert list[0] in list && list[j] in list;
    assert forall q | q in list[1..] :: q in list;
    if j == 0 {
      OthersNotNewer(list[1..], plugin, parse);
    } else {
      NewerThanUnique(list[1..], plugin, parse, j - 1);
    }
  }

  lemma {:induction false} OthersNotNewer(list: seq<Plugin>, plugin: Plugin, parse: Parser)
    requires forall i | 0 <= i < |list| :: list[i].name != plugin.name
    ensures Newer(list, plugin, parse) == Ok(false)
  {
    if list != [] { OthersNotNewer(list[1..], plugin, parse); }
  }

  lemma {:induction false} UpgradedAt(list: seq<Plugin>, plugin: Plugin, j: nat)
    requires j < |list| && list[j].name == plugin.name && forall i | 0 <= i < j :: list[i].name != plugin.name
    ensures Upgraded(list, plugin) == list[j := plugin]
  {
    if j > 0 {
      UpgradedAt(list[1..], plugin, j - 1);
      assert list == [list[0]] + list[1..];
    } else {
      assert list[0].(version := plugin.version) == plugin;
    }
  }

  /** One intended step keeps one entry per name and makes it the newest so far. */
  lemma JoinDominates(list: seq<Plugin>, seen: seq<Plugin>, p: Plugin, parse: Parser)
    requires UniqueNames(list) && Parses(list, parse) && Parses(seen, parse) && parse(p.version).Some?
    requires Dominates(list, seen, parse)
    requires forall n :: HasName(list, n) <==> HasName(seen, n)
    ensures Join(list, p, parse, true).Ok?
    ensures var r := Join(list, p, parse, true).value;
            && UniqueNames(r) && Parses(r, parse) && Parses(seen + [p], parse)
            && (forall q | q in r :: q in list || q == p)
            && Dominates(r, seen + [p], parse)
            && (forall n :: HasName(r, n) <==> HasName(seen + [p], n))
  {
    assert forall n :: HasName(seen + [p], n) <==> HasName(seen, n) || n == p.name by {
      assert forall q :: q in seen + [p] <==> q in seen || q == p;
    }
    if HasName(list, p.name) {
      var q :| q in list && q.name == p.name;
      var j :| 0 <= j < |list| && list[j] == q;
      NewerThanUnique(list, p, parse, j);
      ReplaceDominates(list, seen, p, j, parse);
    } else {
      AppendDominates(list, seen, p, parse);
    }
  }

  lemma AppendDominates(list: seq<Plugin>, seen: seq<Plugin>, p: Plugin, parse: Parser)
    requires UniqueNames(list) && Parses(list, parse) && Parses(seen, parse) && parse(p.version).Some?
    requires Dominates(list, seen, parse) && !HasName(list, p.name)
    requires forall n :: HasName(list, n) <==> HasName(seen, n)
    ensures var r := list + [p];
            && UniqueNames(r) && Parses(r, parse) && Parses(seen + [p], parse)
            && Dominates(r, seen + [p], parse)
            && (forall n :: HasName(r, n) <==> HasName(list, n) || n == p.name)
  {
    var r := list + [p];
    assert forall q :: q in r <==> q in list || q == p;
    assert forall i | 0 <= i < |list| :: list[i] in list;
    ComparePreorder(parse(p.version).value, parse(p.version).value, parse(p.version).value);
    assert p in r;
  }

  lemma ReplaceDominates(list: seq<Plugin>, seen: seq<Plugin>, p: Plugin, j: nat, parse: Parser)
    requires UniqueNames(list) && Parses(list, parse) && Parses(seen, parse) && parse(p.version).Some?
    requires Dominates(list, seen, parse) && j < |list| && list[j].name == p.name
    ensures var r := if Precedence(list[j], p, parse) == 1 || p in list then list else Upgraded(list, p);
            && UniqueNames(r) && Parses(r, parse) && Parses(seen + [p], parse)
            && (forall q | q in r :: q in list || q == p)
            && Dominates(r, seen + [p], parse)
            && (forall n :: HasName(r, n) <==> HasName(list, n))
  {
    UpgradedAt(list, p, j);
    var r := if Precedence(list[j], p, parse) == 1 || p in list then list else list[j := p];
    assert list[j] in list;
    forall q | q in r ensures (q in list && q != list[j]) || q == r[j] {
      var i :| 0 <= i < |r| && r[i] == q;
      if i != j { assert list[i] in list; }
    }
    SameNames(list, r, j);
    assert p in list ==> p == list[j];
    forall q, x | q in r && x in seen + [p] && q.name == x.name ensures Precedence(x, q, parse) <= 0 {
      assert q.name != p.name ==> q in list && x in seen;
      if q.name == p.name {
        assert q == r[j];
        ComparePreorder(parse(x.version).value, parse(list[j].version).value, parse(p.version).value);
        ComparePreorder(parse(p.version).value, parse(list[j].version).value, parse(p.version).value);
        ComparePreorder(parse(p.version).value, parse(p.version).value, parse(p.version).value);
      }
    }
  }

  lemma SameNames(list: seq<Plugin>, r: seq<Plugin>, j: nat)
    requires j < |list| == |r| && r[j].name == list[j].name && forall i | 0 <= i < |list| && i != j :: r[i] == list[i]
    ensures UniqueNames(list) ==> UniqueNames(r)
    ensures UniqueNames(list) ==> forall q | q in r && q.name == list[j].name :: q == r[j]
    ensures forall n :: HasName(r, n) <==> HasName(list, n)
  {
    forall n ensures HasName(r, n) <==> HasName(list, n) {
      if q :| q in r && q.name == n {
        var i :| 0 <= i < |r| && r[i] == q;
        assert list[i] in list;
      }
      if q :| q in list && q.name == n {
        var i :| 0 <= i < |list| && list[i] == q;
        assert r[i] in r;
      }
    }
  }

  lemma {:induction false} JoinAllDominates(list: seq<Plugin>, seen: seq<Plugin>, plugins: seq<Plugin>, parse: Parser)
    requires UniqueNames(list) && Parses(list, parse) && Parses(seen, parse) && Parses(plugins, parse)
    requires Dominates(list, seen, parse) && forall q | q in list :: q in seen
    requires forall n :: HasName(list, n) <==> HasName(seen, n)
    ensures JoinAll(list, plugins, parse, true).Ok?
    ensures var r := JoinAll(list, plugins, parse, true).value;
            && UniqueNames(r) && Parses(r, parse) && Parses(seen + plugins, parse)
            && (forall q | q in r :: q in seen + plugins)
            && Dominates(r, seen + plugins, parse)
            && (forall n :: HasName(r, n) <==> HasName(seen + plugins, n))
    decreases |plugins|
  {
    if plugins == [] {
      assert seen + plugins == seen;
    } else {
      var p, rest := plugins[0], plugins[1..];
      assert p in plugins && forall q | q in rest :: q in plugins;
      JoinDominates(list, seen, p, parse);
      assert seen + [p] + rest == seen + plugins;
      assert forall q | q in seen :: q in seen + [p];
      assert p in seen + [p];
      JoinAllDominates(Join(list, p, parse, true).value, seen + [p], rest, parse);
    }
  }

  ghost predicate StoreParses(store: map<string, seq<Plugin>>, parse: Parser) {
    forall k | k in store :: Parses(store[k], parse)
  }

  lemma RequestsParse(store: map<string, seq<Plugin>>, order: seq<string>, parse: Parser)
    requires IsOrder(order, store.Keys) && StoreParses(store, parse)
    ensures Parses(Requests(order, store), parse)
  {
    RequestMembers(order, store);
  }

  /** One entry per stored name, itself a stored request, that no request of the name exceeds. */
  ghost predicate BestOf(r: seq<Plugin>, store: map<string, seq<Plugin>>, parse: Parser)
    requires StoreParses(store, parse)
  {
    && UniqueNames(r)
    && (forall n :: HasName(r, n) <==> StoredName(store, n))
    && (forall q | q in r :: Stored(store, q))
    && (forall q, k, p | q in r && k in store && p in store[k] && p.name == q.name ::
          parse(q.version).Some? && Precedence(p, q, parse) <= 0)
  }

  ghost predicate StoredName(store: map<string, seq<Plugin>>, n: string) {
    exists k :: k in store && HasName(store[k], n)
  }

  ghost predicate Stored(store: map<string, seq<Plugin>>, q: Plugin) {
    exists k :: k in store && q in store[k]
  }

  lemma RequestNames(order: seq<string>, store: map<string, seq<Plugin>>)
    requires IsOrder(order, store.Keys)
    ensures forall n :: HasName(Requests(order, store), n) <==> StoredName(store, n)
    ensures forall q :: q in Requests(order, store) <==> Stored(store, q)
  {
    RequestMembers(order, store);
    var requests := Requests(order, store);
    forall n ensures HasName(requests, n) <==> StoredName(store, n) {
      if HasName(requests, n) {
        var q :| q in requests && q.name == n;
        var k :| k in order && q in store[k];
        assert HasName(store[k], n);
      }
      if k :| k in store && HasName(store[k], n) {
        var q :| q in store[k] && q.name == n;
        assert q in requests;
      }
    }
  }

  /** MAIN: with the intended Update consolidation succeeds for every map order, with the best
      stored version of every plugin. */
  lemma IntendedResult(store: map<string, seq<Plugin>>, order: seq<string>, parse: Parser)
    requires IsOrder(order, store.Keys) && StoreParses(store, parse)
    ensures JoinAll([], Requests(order, store), parse, true).Ok?
    ensures BestOf(JoinAll([], Requests(order, store), parse, true).value, store, parse)
  {
    var requests := Requests(order, store);
    RequestsParse(store, order, parse);
    JoinAllDominates([], [], requests, parse);
    assert [] + requests == requests;
    RequestNames(order, store);
  }

  /** MAIN: "best" means the highest precedence: no request for a plugin is above the entry of its name. */
  lemma IntendedHighest(store: map<string, seq<Plugin>>, order: seq<string>, parse: Parser, q: Plugin, k: string,
                        p: Plugin)
    requires IsOrder(order, store.Keys) && StoreParses(store, parse)
    requires JoinAll([], Requests(order, store), parse, true).Ok? ==> q in JoinAll([], Requests(order, store), parse, true).value
    requires k in store && p in store[k] && p.name == q.name
    ensures parse(p.version).Some? && parse(q.version).Some?
    ensures Compare(parse(p.version).value, parse(q.version).value) <= 0
  {
    IntendedResult(store, order, parse);
  }

  /** When the question fails: at an entry of the name that cannot be compared, unless a newer one comes
      before it. */
  lemma {:induction false} NewerFailsIff(list: seq<Plugin>, plugin: Plugin, parse: Parser)
    ensures Newer(list, plugin, parse).Err? <==> exists j: nat :: j < |list| && FailsAt(list, plugin, parse, j)
  {
    if list != [] {
      var rest := list[1..];
      NewerFailsIff(rest, plugin, parse);
      if j: nat :| j < |rest| && FailsAt(rest, plugin, parse, j) {
        if !Decides(list[0], plugin, parse) {
          assert FailsAt(list, plugin, parse, j + 1);
        }
      }
      if j: nat :| j < |list| && FailsAt(list, plugin, parse, j) {
        if j > 0 {
          assert !Decides(list[0], plugin, parse) && FailsAt(rest, plugin, parse, j - 1);
        }
      } else {
        assert !FailsAt(list, plugin, parse, 0);
      }
    }
  }

  /** The entry ends the search: it cannot be compared, or it is newer. */
  predicate Decides(entry: Plugin, plugin: Plugin, parse: Parser) {
    entry.name == plugin.name &&
    (parse(entry.version).None? || parse(plugin.version).None?
     || Compare(parse(entry.version).value, parse(plugin.version).value) > 0)
  }

  predicate FailsAt(list: seq<Plugin>, plugin: Plugin, parse: Parser, j: nat)
    requires j < |list|
  {
    && list[j].name == plugin.name && (parse(list[j].version).None? || parse(plugin.version).None?)
    && forall i | 0 <= i < j :: !Decides(list[i], plugin, parse)
  }

  /** Whether a list has a newer version, in terms of precedence alone. */
  lemma {:induction false} NewerIff(list: seq<Plugin>, plugin: Plugin, parse: Parser)
    requires Parses(list, parse) && parse(plugin.version).Some?
    ensures Newer(list, plugin, parse).Ok?
    ensures Newer(list, plugin, parse).value <==>
              exists q :: q in list && q.name == plugin.name && parse(q.version).Some?
                          && Compare(parse(plugin.version).value, parse(q.version).value) < 0
  {
    if list != [] {
      assert forall q :: q in list <==> q == list[0] || q in list[1..];
      ComparePreorder(parse(list[0].version).value, parse(plugin.version).value, parse(list[0].version).value);
      NewerIff(list[1..], plugin, parse);
    }
  }

  /** MAIN: so the intended result does not depend on the map order, up to permutation and
      versions of equal precedence. */
  lemma IntendedIgnoresOrder(store: map<string, seq<Plugin>>, a: seq<string>, b: seq<string>, parse: Parser)
    requires IsOrder(a, store.Keys) && IsOrder(b, store.Keys) && StoreParses(store, parse)
    ensures JoinAll([], Requests(a, store), parse, true).Ok? && JoinAll([], Requests(b, store), parse, true).Ok?
    ensures forall p | p in JoinAll([], Requests(a, store), parse, true).value ::
              exists q :: q in JoinAll([], Requests(b, store), parse, true).value && SameUpToBuild(p, q, parse)
  {
    IntendedResult(store, a, parse);
    IntendedResult(store, b, parse);
    var ra, rb := JoinAll([], Requests(a, store), parse, true).value, JoinAll([], Requests(b, store), parse, true).value;
    forall p | p in ra ensures exists q :: q in rb && SameUpToBuild(p, q, parse) {
      BestAgree(ra, rb, store, parse, p);
    }
  }

  /** The same plugin in versions that differ at most in build metadata. */
  predicate SameUpToBuild(p: Plugin, q: Plugin, parse: Parser) {
    p.name == q.name && parse(p.version).Some? && parse(q.version).Some?
    && Core(parse(p.version).value) == Core(parse(q.version).value)
  }

  lemma BestIsAtLeast(r: seq<Plugin>, store: map<string, seq<Plugin>>, parse: Parser, q: Plugin, p: Plugin)
    requires StoreParses(store, parse) && BestOf(r, store, parse)
    requires q in r && Stored(store, p) && p.name == q.name
    ensures parse(p.version).Some? && parse(q.version).Some? && Precedence(p, q, parse) <= 0
  {
    var k :| k in store && p in store[k];
  }

  lemma BestAgree(ra: seq<Plugin>, rb: seq<Plugin>, store: map<string, seq<Plugin>>, parse: Parser, p: Plugin)
    requires StoreParses(store, parse) && BestOf(ra, store, parse) && BestOf(rb, store, parse) && p in ra
    ensures exists q :: q in rb && SameUpToBuild(p, q, parse)
  {
    assert HasName(ra, p.name) && HasName(rb, p.name);
    var q :| q in rb && q.name == p.name;
    assert Stored(store, p) && Stored(store, q);
    BestIsAtLeast(ra, store, parse, p, q);
    BestIsAtLeast(rb, store, parse, q, p);
    ComparePreorder(parse(p.version).value, parse(q.version).value, parse(p.version).value);
    assert SameUpToBuild(p, q, parse);
  }

  // When the literal code meets the intention

  /** With parseable versions the literal code does not fail either. */
  lemma {:induction false} LiteralSucceeds(list: seq<Plugin>, plugins: seq<Plugin>, parse: Parser)
    requires UniqueNames(list) && Parses(list, parse) && Parses(plugins, parse)
    ensures JoinAll(list, plugins, parse, false).Ok?
    decreases |plugins|
  {
    if plugins != [] {
      var p := plugins[0];
      assert p in plugins && forall q | q in plugins[1..] :: q in plugins;
      if HasName(list, p.name) {
        var q :| q in list && q.name == p.name;
        var j :| 0 <= j < |list| && list[j] == q;
        NewerThanUnique(list, p, parse, j);
        LiteralSucceeds(list, plugins[1..], parse);
      } else {
        assert forall i | 0 <= i < |list| :: list[i] in list;
        LiteralSucceeds(list + [p], plugins[1..], parse);
      }
    }
  }

  /** Every stored request is at most as new as the entry of its name. */
  ghost predicate Newest(r: seq<Plugin>, store: map<string, seq<Plugin>>, parse: Parser)
    requires StoreParses(store, parse)
  {
    forall q, k, p | q in r && k in store && p in store[k] && p.name == q.name ::
      parse(q.version).Some? && Precedence(p, q, parse) <= 0
  }

  /** All requests for one plugin have versions of equal precedence. */
  ghost predicate Agreed(store: map<string, seq<Plugin>>, parse: Parser)
    requires StoreParses(store, parse)
  {
    forall j, k, p, q | j in store && k in store && p in store[j] && q in store[k] && p.name == q.name ::
      Precedence(p, q, parse) == 0
  }

  ghost predicate LiteralNewest(store: map<string, seq<Plugin>>, parse: Parser)
    requires StoreParses(store, parse)
  {
    forall order | IsOrder(order, store.Keys) ::
      JoinAll([], Requests(order, store), parse, false).Ok?
      && Newest(JoinAll([], Requests(order, store), parse, false).value, store, parse)
  }

  /** MAIN: the literal code installs the newest requested versions whatever the map order
      exactly when there is nothing to choose: all requests for a plugin agree. */
  lemma LiteralNewestIffAgreed(store: map<string, seq<Plugin>>, parse: Parser)
    requires StoreParses(store, parse) && forall k | k in store :: UniqueNames(store[k])
    ensures LiteralNewest(store, parse) <==> Agreed(store, parse)
  {
    if Agreed(store, parse) {
      forall order | IsOrder(order, store.Keys)
        ensures JoinAll([], Requests(order, store), parse, false).Ok?
        ensures Newest(JoinAll([], Requests(order, store), parse, false).value, store, parse)
      {
        RequestsParse(store, order, parse);
        LiteralSucceeds([], Requests(order, store), parse);
        LiteralKeepsFirstSeen([], Requests(order, store), parse);
        FirstSeenNames([], Requests(order, store));
        RequestMembers(order, store);
      }
    } else {
      var j, k, p, q :| j in store && k in store && p in store[j] && q in store[k] && p.name == q.name
        && Precedence(p, q, parse) != 0;
      ComparePreorder(parse(p.version).value, parse(q.version).value, parse(p.version).value);
      if Precedence(p, q, parse) > 0 {
        var order := OlderFirst(store, parse, k, q, j, p);
      } else {
        var order := OlderFirst(store, parse, j, p, k, q);
      }
    }
  }

  /** For every stored request there is a map order in which it is the one that stays. */
  lemma VisitedFirstStays(store: map<string, seq<Plugin>>, parse: Parser, k: string, p: Plugin)
    returns (order: seq<string>)
    requires StoreParses(store, parse) && k in store && p in store[k] && UniqueNames(store[k])
    ensures IsOrder(order, store.Keys) && JoinAll([], Requests(order, store), parse, false).Ok?
    ensures p in JoinAll([], Requests(order, store), parse, false).value
  {
    order := OrderStartingWith(store.Keys, k);
    var requests := Requests(order, store);
    RequestsParse(store, order, parse);
    LiteralSucceeds([], requests, parse);
    LiteralKeepsFirstSeen([], requests, parse);
    var i :| 0 <= i < |store[k]| && store[k][i] == p;
    assert requests[i] == p && forall m | 0 <= m < i :: requests[m] == store[k][m];
    EarliestWins(requests, [], i);
  }

  /** If the older request of two is visited first, it stays and the newer one is not installed. */
  lemma OlderFirst(store: map<string, seq<Plugin>>, parse: Parser, k: string, old_: Plugin, j: string, new_: Plugin)
    returns (order: seq<string>)
    requires StoreParses(store, parse) && forall k | k in store :: UniqueNames(store[k])
    requires k in store && j in store && old_ in store[k] && new_ in store[j] && old_.name == new_.name
    requires Precedence(new_, old_, parse) > 0
    ensures IsOrder(order, store.Keys) && JoinAll([], Requests(order, store), parse, false).Ok?
    ensures var r := JoinAll([], Requests(order, store), parse, false).value;
            old_ in r && new_ !in r && !Newest(r, store, parse)
  {
    order := VisitedFirstStays(store, parse, k, old_);
    LiteralResult(store, order, parse);
    ComparePreorder(parse(new_.version).value, parse(old_.version).value, parse(new_.version).value);
  }

  ghost predicate SameMembers(a: seq<Plugin>, b: seq<Plugin>) {
    forall p :: p in a <==> p in b
  }

  /** The literal code installs the same plugins in the same versions for all map orders. */
  ghost predicate LiteralIgnoresOrder(store: map<string, seq<Plugin>>, parse: Parser) {
    forall a, b | IsOrder(a, store.Keys) && IsOrder(b, store.Keys) ::
      && JoinAll([], Requests(a, store), parse, false).Ok? && JoinAll([], Requests(b, store), parse, false).Ok?
      && SameMembers(JoinAll([], Requests(a, store), parse, false).value,
                     JoinAll([], Requests(b, store), parse, false).value)
  }

  /** Any two stored requests for a plugin are the same. */
  ghost predicate OneVersion(store: map<string, seq<Plugin>>) {
    forall p, q | Stored(store, p) && Stored(store, q) && p.name == q.name :: p == q
  }

  /** MAIN: the exact condition under which Go's random map order cannot be seen in the literal result:
      all stored requests for a plugin are the same. */
  lemma LiteralIgnoresOrderIff(store: map<string, seq<Plugin>>, parse: Parser)
    requires StoreParses(store, parse) && forall k | k in store :: UniqueNames(store[k])
    ensures LiteralIgnoresOrder(store, parse) <==> OneVersion(store)
  {
    if OneVersion(store) {
      forall a, b | IsOrder(a, store.Keys) && IsOrder(b, store.Keys)
        ensures JoinAll([], Requests(a, store), parse, false).Ok? && JoinAll([], Requests(b, store), parse, false).Ok?
        ensures SameMembers(JoinAll([], Requests(a, store), parse, false).value,
                            JoinAll([], Requests(b, store), parse, false).value)
      {
        LiteralMembers(store, a, parse);
        LiteralMembers(store, b, parse);
        SameStored(store, JoinAll([], Requests(a, store), parse, false).value,
                   JoinAll([], Requests(b, store), parse, false).value);
      }
    } else {
      var p, q :| Stored(store, p) && Stored(store, q) && p.name == q.name && p != q;
      var j :| j in store && p in store[j];
      var k :| k in store && q in store[k];
      var a := VisitedFirstStays(store, parse, j, p);
      var b := VisitedFirstStays(store, parse, k, q);
      LiteralResult(store, a, parse);
      NotBoth(JoinAll([], Requests(a, store), parse, false).value, p, q);
    }
  }

  lemma NotBoth(list: seq<Plugin>, p: Plugin, q: Plugin)
    requires UniqueNames(list) && p.name == q.name && p != q
    ensures p !in list || q !in list
  {
  }

  lemma SameStored(store: map<string, seq<Plugin>>, ra: seq<Plugin>, rb: seq<Plugin>)
    requires OneVersion(store) && forall n :: HasName(ra, n) <==> HasName(rb, n)
    requires (forall q | q in ra :: Stored(store, q)) && forall q | q in rb :: Stored(store, q)
    ensures SameMembers(ra, rb)
  {
    forall p ensures p in ra <==> p in rb {
      assert p in ra ==> HasName(ra, p.name);
      assert p in rb ==> HasName(rb, p.name);
    }
  }

  /** The literal result holds stored requests only, and one for every stored name. */
  lemma LiteralMembers(store: map<string, seq<Plugin>>, order: seq<string>, parse: Parser)
    requires StoreParses(store, parse) && IsOrder(order, store.Keys)
    ensures JoinAll([], Requests(order, store), parse, false).Ok?
    ensures var r := JoinAll([], Requests(order, store), parse, false).value;
            && (forall q | q in r :: Stored(store, q)) && (forall n :: HasName(r, n) <==> StoredName(store, n))
  {
    var requests := Requests(order, store);
    RequestsParse(store, order, parse);
    LiteralSucceeds([], requests, parse);
    LiteralKeepsFirstSeen([], requests, parse);
    FirstSeenNames([], requests);
    RequestNames(order, store);
  }
}
