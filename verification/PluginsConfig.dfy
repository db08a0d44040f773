/** The plugins config map of an instance: dashboards and datasources write their requests,
    the plugins stage reads them (controllers/controller_shared.go,
    controllers/reconcilers/grafana/plugins_reconciler.go). */
module PluginsConfig {
  import opened Wrappers
  import opened Strings
  import opened Plugins
  import opened Cluster

  /** JSON for plugin lists; a nil list is the empty list here. */
  datatype Json = Json(marshal: seq<Plugin> -> string, unmarshal: string -> Option<seq<Plugin>>)

  ghost predicate RoundTrips(json: Json) {
    forall l :: json.unmarshal(json.marshal(l)) == Some(l)
  }

  /** The first entry with a parseable version of every name. */
  function Sanitized(sanitized: seq<Plugin>, list: seq<Plugin>, parse: Parser): seq<Plugin>
    decreases |list|
  {
    if list == [] then sanitized
    else
      var keep := parse(list[0].version).Some? && !HasName(sanitized, list[0].name);
      Sanitized(if keep then sanitized + [list[0]] else sanitized, list[1..], parse)
  }

  method Sanitize(list: seq<Plugin>, parse: Parser) returns (sanitized: seq<Plugin>)
    ensures sanitized == Sanitized([], list, parse)
  {
    sanitized := [];
    for i := 0 to |list|
      invariant Sanitized(sanitized, list[i..], parse) == Sanitized([], list, parse)
    {
      assert list[i..][1..] == list[i + 1..];
      if parse(list[i].version).None? {
        continue;
      }
      var found := HasSomeVersionOf(sanitized, list[i]);
      if !found {
        sanitized := sanitized + [list[i]];
      }
    }
  }

  predicate CleanList(list: seq<Plugin>, parse: Parser) {
    UniqueNames(list) && Parses(list, parse)
  }

  /** MAIN: sanitizing removes duplicates and unparseable versions, and nothing else: every name
      with a parseable request keeps one, and it is one of the requests. */
  lemma {:induction false} SanitizedIsClean(sanitized: seq<Plugin>, list: seq<Plugin>, parse: Parser)
    requires CleanList(sanitized, parse)
    ensures var r := Sanitized(sanitized, list, parse);
            && CleanList(r, parse)
            && (forall q | q in r :: q in sanitized || q in list)
            && (forall n :: HasName(r, n) <==>
                  HasName(sanitized, n) || exists q :: q in list && q.name == n && parse(q.version).Some?)
    decreases |list|
  {
    if list != [] {
      var p := list[0];
      var keep := parse(p.version).Some? && !HasName(sanitized, p.name);
      var next := if keep then sanitized + [p] else sanitized;
      assert forall q :: q in next ==> q in sanitized || (q == p && keep);
      assert forall i | 0 <= i < |sanitized| :: sanitized[i] in sanitized;
      SanitizedIsClean(next, list[1..], parse);
      assert forall q :: q in list <==> q == p || q in list[1..];
      forall n ensures HasName(next, n) <==> HasName(sanitized, n) || (keep && n == p.name) {
        if HasName(sanitized, n) {
          var q :| q in sanitized && q.name == n;
          assert q in next;
        }
        if keep { assert p in next; }
      }
    }
  }

  /** What one request of a resource makes of the stored data. */
  function Put(data: map<string, string>, plugins: seq<Plugin>, resource: string, parse: Parser, json: Json)
    : map<string, string>
  {
    data[resource := json.marshal(Sanitized([], plugins, parse))]
  }

  /** Bytes stored under a missing key count as empty. */
  function Bytes(data: map<string, string>, resource: string): string {
    if resource in data then data[resource] else ""
  }

  /** Every stored value unmarshals to a clean list. */
  ghost predicate CleanData(data: map<string, string>, parse: Parser, json: Json) {
    forall k | k in data :: json.unmarshal(data[k]).Some? && CleanList(json.unmarshal(data[k]).value, parse)
  }

  /** The lists behind the bytes. */
  ghost function Store(data: map<string, string>, json: Json): map<string, seq<Plugin>>
    requires forall k | k in data :: json.unmarshal(data[k]).Some?
  {
    map k | k in data :: json.unmarshal(data[k]).value
  }

  class PluginsConfigMap {
    var binaryData: map<string, string>
    var updates: nat   // how often the map was written

    constructor ()
      ensures binaryData == map[] && updates == 0
    {
      binaryData, updates := map[], 0;
    }

    /** `get` and `update` are the outcomes of the two calls to the API server. */
    method ReconcilePlugins(plugins: seq<Plugin>, resource: string, get: Fault, update: Fault, parse: Parser, json: Json)
      returns (ok: bool)
      modifies this
      ensures if updates == old(updates) then binaryData == old(binaryData)
              else updates == old(updates) + 1
                   && binaryData == Put(old(binaryData), plugins, resource, parse, json)
      ensures ok ==> Bytes(binaryData, resource) == json.marshal(Sanitized([], plugins, parse))
      ensures var changed := Bytes(old(binaryData), resource) != json.marshal(Sanitized([], plugins, parse));
              && (ok <==> get == NoFault && (changed ==> update == NoFault))
              && (updates != old(updates) <==> get == NoFault && changed && update != Lost)
      ensures Bytes(old(binaryData), resource) == json.marshal(Sanitized([], plugins, parse))
              ==> updates == old(updates)
      ensures RoundTrips(json) && CleanData(old(binaryData), parse, json) ==> CleanData(binaryData, parse, json)
    {
      if get != NoFault {
        return false;
      }
      var sanitized := Sanitize(plugins, parse);
      SanitizedIsClean([], plugins, parse);
      var val := json.marshal(sanitized);
      ok := true;
      if val != Bytes(binaryData, resource) {
        if update != Lost {
          binaryData := binaryData[resource := val];
          updates := updates + 1;
        }
        ok := update == NoFault;
      }
    }

    /** The plugins stage: the value of GF_INSTALL_PLUGINS. `order` is the map order. */
    method ConsolidatePlugins(order: seq<string>, parse: Parser, json: Json) returns (vars: Result<string>)
      requires IsOrder(order, binaryData.Keys)
      ensures vars == PluginsVar(binaryData, order, parse, json)
      ensures CleanData(binaryData, parse, json) ==>
                vars == Ok(Listing(FirstSeen([], Requests(order, Store(binaryData, json)))))
      ensures (exists k :: k in binaryData && json.unmarshal(binaryData[k]).None?) ==> vars.Err?
    {
      if k :| k in binaryData && json.unmarshal(binaryData[k]).None? {
        UnreadableFails([], order, binaryData, parse, json, k);
      }
      assert forall i | 0 <= i < |order| :: order[i] in binaryData.Keys;
      if CleanData(binaryData, parse, json) {
        CleanDataConsolidates(binaryData, order, parse, json);
      }
      if binaryData == map[] {
        assert order == [];
        return Ok("");
      }
      var consolidated: seq<Plugin> := [];
      for n := 0 to |order|
        invariant Consolidated(consolidated, order[n..], binaryData, parse, json)
               == Consolidated([], order, binaryData, parse, json)
      {
        assert order[n..][1..] == order[n + 1..];
        var plugins := json.unmarshal(binaryData[order[n]]);
        if plugins.None? {
          return Err("error consolidating plugins");
        }
        var joined := JoinList(consolidated, plugins.value, parse, false);
        if joined.Err? {
          return Err(joined.message);
        }
        consolidated := joined.value;
      }
      return Ok(Listing(consolidated));
    }
  }

  /** The entries of the map joined in order; the first one that fails ends it. */
  function Consolidated(list: seq<Plugin>, order: seq<string>, data: map<string, string>, parse: Parser, json: Json)
    : Result<seq<Plugin>>
    decreases |order|
  {
    if order == [] then Ok(list)
    else
      match json.unmarshal(Bytes(data, order[0]))
      case None => Err("error consolidating plugins")
      case Some(plugins) =>
        match JoinAll(list, plugins, parse, false)
        case Err(e) => Err(e)
        case Ok(joined) => Consolidated(joined, order[1..], data, parse, json)
  }

  function PluginsVar(data: map<string, string>, order: seq<string>, parse: Parser, json: Json): Result<string> {
    match Consolidated([], order, data, parse, json)
    case Err(e) => Err(e)
    case Ok(list) => Ok(Listing(list))
  }

  lemma {:induction false} ConsolidatedIsJoin(list: seq<Plugin>, order: seq<string>, data: map<string, string>,
                                              parse: Parser, json: Json)
    requires forall k | k in data :: json.unmarshal(data[k]).Some?
    requires forall i | 0 <= i < |order| :: order[i] in data
    ensures Consolidated(list, order, data, parse, json)
         == JoinAll(list, Requests(order, Store(data, json)), parse, false)
    decreases |order|
  {
    if order != [] {
      var store := Store(data, json);
      var joined := JoinAll(list, store[order[0]], parse, false);
      JoinAllConcat(list, store[order[0]], Requests(order[1..], store), parse, false);
      if joined.Ok? {
        ConsolidatedIsJoin(joined.value, order[1..], data, parse, json);
      }
    }
  }

  /** Bytes that are no list end the stage with an error. */
  lemma {:induction false} UnreadableFails(list: seq<Plugin>, order: seq<string>, data: map<string, string>,
                                           parse: Parser, json: Json, k: string)
    requires k in order && json.unmarshal(Bytes(data, k)).None?
    ensures Consolidated(list, order, data, parse, json).Err?
    decreases |order|
  {
    if order[0] != k && json.unmarshal(Bytes(data, order[0])).Some? {
      assert order == [order[0]] + order[1..];
      var joined := JoinAll(list, json.unmarshal(Bytes(data, order[0])).value, parse, false);
      if joined.Ok? {
        UnreadableFails(joined.value, order[1..], data, parse, json, k);
      }
    }
  }

  /** On clean data the stage lists, for every name, the request it meets first. */
  lemma CleanDataConsolidates(data: map<string, string>, order: seq<string>, parse: Parser, json: Json)
    requires CleanData(data, parse, json) && IsOrder(order, data.Keys)
    ensures PluginsVar(data, order, parse, json) == Ok(Listing(FirstSeen([], Requests(order, Store(data, json)))))
  {
    assert forall i | 0 <= i < |order| :: order[i] in order;
    ConsolidatedIsJoin([], order, data, parse, json);
    StoreIsClean(data, order, parse, json);
  }

  lemma StoreIsClean(data: map<string, string>, order: seq<string>, parse: Parser, json: Json)
    requires CleanData(data, parse, json) && IsOrder(order, data.Keys)
    ensures StoreParses(Store(data, json), parse)
    ensures var requests := Requests(order, Store(data, json));
            JoinAll([], requests, parse, false) == Ok(FirstSeen([], requests))
  {
    var store := Store(data, json);
    RequestsParse(store, order, parse);
    LiteralSucceeds([], Requests(order, store), parse);
    LiteralKeepsFirstSeen([], Requests(order, store), parse);
  }

  /** `PluginList.String`. */
  function Listing(list: seq<Plugin>): string {
    if list == [] then ""
    else if |list| == 1 then list[0].name + " " + list[0].version
    else list[0].name + " " + list[0].version + "," + Listing(list[1..])
  }

  /** The entries of a listing. */
  function SplitAtCommas(s: string): (parts: seq<string>)
    ensures parts != []
  {
    if s == "" then [""]
    else
      var rest := SplitAtCommas(s[1..]);
      if s[0] == ',' then [""] + rest else [[s[0]] + rest[0]] + rest[1..]
  }

  lemma {:induction false} SplitFirst(a: string, s: string)
    requires ',' !in a
    ensures SplitAtCommas(a) == [a]
    ensures SplitAtCommas(a + "," + s) == [a] + SplitAtCommas(s)
  {
    var t := a + "," + s;
    if a == "" {
      assert t[1..] == s;
    } else {
      assert a[0] in a && t[1..] == a[1..] + "," + s;
      SplitFirst(a[1..], s);
      assert [a[0]] + a[1..] == a;
    }
  }

  /** The listing names every plugin with its version, in order, separated by commas. */
  lemma {:induction false} ListingReads(list: seq<Plugin>)
    requires forall p | p in list :: ',' !in p.name && ',' !in p.version
    ensures |list| > 0 ==> |SplitAtCommas(Listing(list))| == |list|
    ensures forall k | 0 <= k < |list| :: k < |SplitAtCommas(Listing(list))|
                                          && SplitAtCommas(Listing(list))[k] == list[k].name + " " + list[k].version
  {
    if list != [] {
      var entry := list[0].name + " " + list[0].version;
      assert list[0] in list && ',' !in entry;
      SplitFirst(entry, Listing(list[1..]));
      ListingReads(list[1..]);
    }
  }

  /** Of several parseable requests for a plugin in one list the first is kept. */
  lemma {:induction false} FirstIsKept(sanitized: seq<Plugin>, list: seq<Plugin>, parse: Parser, j: nat)
    requires j < |list| && parse(list[j].version).Some? && !HasName(sanitized, list[j].name)
    requires forall i | 0 <= i < j :: list[i].name != list[j].name || parse(list[i].version).None?
    ensures list[j] in Sanitized(sanitized, list, parse)
    decreases |list|
  {
    var keep := parse(list[0].version).Some? && !HasName(sanitized, list[0].name);
    var next := if keep then sanitized + [list[0]] else sanitized;
    if j == 0 {
      assert list[0] in next;
      KeptStays(next, list[1..], parse, list[0]);
    } else {
      assert list[j] == list[1..][j - 1];
      assert !HasName(next, list[j].name);
      FirstIsKept(next, list[1..], parse, j - 1);
    }
  }

  lemma {:induction false} KeptStays(sanitized: seq<Plugin>, list: seq<Plugin>, parse: Parser, p: Plugin)
    requires p in sanitized
    ensures p in Sanitized(sanitized, list, parse)
    decreases |list|
  {
    if list != [] {
      var keep := parse(list[0].version).Some? && !HasName(sanitized, list[0].name);
      KeptStays(if keep then sanitized + [list[0]] else sanitized, list[1..], parse, p);
    }
  }

  datatype Event = Event(plugins: seq<Plugin>, resource: string)

  /** The data after any sequence of requests, starting from the empty map. */
  function DataAfter(events: seq<Event>, parse: Parser, json: Json): map<string, string> {
    if events == [] then map[]
    else
      var last := events[|events| - 1];
      Put(DataAfter(events[..|events| - 1], parse, json), last.plugins, last.resource, parse, json)
  }

  /** MAIN: producers and consumer fit together. After any requests the stored lists are clean,
      so the plugins stage succeeds for every map order, and repeating the last request has
      nothing to write. */
  lemma {:induction false} ConsumerNeverFails(events: seq<Event>, order: seq<string>, parse: Parser, json: Json)
    requires RoundTrips(json)
    ensures CleanData(DataAfter(events, parse, json), parse, json)
    ensures IsOrder(order, DataAfter(events, parse, json).Keys) ==>
              PluginsVar(DataAfter(events, parse, json), order, parse, json)
              == Ok(Listing(FirstSeen([], Requests(order, Store(DataAfter(events, parse, json), json)))))
    ensures events != [] ==>
              var last := events[|events| - 1];
              Bytes(DataAfter(events, parse, json), last.resource) == json.marshal(Sanitized([], last.plugins, parse))
  {
    var data := DataAfter(events, parse, json);
    if events != [] {
      var last := events[|events| - 1];
      ConsumerNeverFails(events[..|events| - 1], [], parse, json);
      SanitizedIsClean([], last.plugins, parse);
    }
    if IsOrder(order, data.Keys) {
      CleanDataConsolidates(data, order, parse, json);
    }
  }

  // Whose request is stored

  datatype Kind = OfDashboard | OfDatasource

  /** The resource that a request comes from. */
  datatype Owner = Owner(namespace: string, name: string, kind: Kind)

  /** The key of a resource in the config map: its namespace is not part of it. */
  function ResourceKey(o: Owner): string {
    o.name + if o.kind == OfDashboard then "-dashboard" else "-datasource"
  }

  predicate Namesakes(o: Owner, p: Owner) { o.name == p.name && o.kind == p.kind }

  /** Two resources share a key exactly if they have the same kind and name. */
  lemma KeysCollideIff(o: Owner, p: Owner)
    ensures ResourceKey(o) == ResourceKey(p) <==> Namesakes(o, p)
  {
    var a, b := ResourceKey(o), ResourceKey(p);
    LastChar(o);
    LastChar(p);
    if o.kind == p.kind && a == b {
      assert |o.name| == |p.name|;
      assert o.name == a[..|o.name|] == b[..|p.name|] == p.name;
    }
  }

  lemma LastChar(o: Owner)
    ensures ResourceKey(o) != "" && ResourceKey(o)[|ResourceKey(o)| - 1] == if o.kind == OfDashboard then 'd' else 'e'
  {
  }

  datatype Asked = Asked(owner: Owner, plugins: seq<Plugin>)

  function EventsOf(asked: seq<Asked>): (events: seq<Event>)
    ensures |events| == |asked|
    ensures forall i | 0 <= i < |asked| :: events[i] == Event(asked[i].plugins, ResourceKey(asked[i].owner))
  {
    seq(|asked|, i requires 0 <= i < |asked| => Event(asked[i].plugins, ResourceKey(asked[i].owner)))
  }

  /** The last request under a key is the stored one. */
  lemma {:induction false} LastRequestStored(events: seq<Event>, i: nat, parse: Parser, json: Json)
    requires i < |events| && forall j | i < j < |events| :: events[j].resource != events[i].resource
    ensures Bytes(DataAfter(events, parse, json), events[i].resource)
         == json.marshal(Sanitized([], events[i].plugins, parse))
  {
    var n := |events| - 1;
    if i < n {
      assert events[n].resource != events[i].resource && events[..n][i] == events[i];
      LastRequestStored(events[..n], i, parse, json);
    }
  }

  /** Request j is the last one from a resource of this kind and name. */
  predicate LastOfNamesakes(asked: seq<Asked>, o: Owner, j: nat)
    requires j < |asked|
  {
    Namesakes(asked[j].owner, o) && forall k | j < k < |asked| :: !Namesakes(asked[k].owner, o)
  }

  lemma {:induction false} SomeLast(asked: seq<Asked>, o: Owner, i: nat) returns (j: nat)
    requires i < |asked| && Namesakes(asked[i].owner, o)
    ensures i <= j < |asked| && LastOfNamesakes(asked, o, j)
    decreases |asked| - i
  {
    if k :| i < k < |asked| && Namesakes(asked[k].owner, o) {
      j := SomeLast(asked, o, k);
    } else {
      j := i;
    }
  }

  /** MAIN: the exact condition for the latest request of a resource, its i-th in all, to be what is
      stored for it: the last request from a resource of its kind and name is its own, or one
      from another namespace for the same list. In particular the deletion of a namesake, which
      asks for nothing, removes the plugins of the resource that is still there. */
  lemma RequestStoredIff(asked: seq<Asked>, i: nat, parse: Parser, json: Json)
    requires RoundTrips(json) && i < |asked| && forall j | i < j < |asked| :: asked[j].owner != asked[i].owner
    ensures var o := asked[i].owner;
            Bytes(DataAfter(EventsOf(asked), parse, json), ResourceKey(o))
            == json.marshal(Sanitized([], asked[i].plugins, parse))
            <==> forall j: nat | i < j < |asked| && LastOfNamesakes(asked, o, j) ::
                   asked[j].owner.namespace != o.namespace
                   && Sanitized([], asked[j].plugins, parse) == Sanitized([], asked[i].plugins, parse)
  {
    var o, events := asked[i].owner, EventsOf(asked);
    var j := SomeLast(asked, o, i);
    forall k | 0 <= k < |asked| ensures events[k].resource == ResourceKey(o) <==> Namesakes(asked[k].owner, o) {
      KeysCollideIff(asked[k].owner, o);
    }
    LastRequestStored(events, j, parse, json);
    SameListIff(Sanitized([], asked[j].plugins, parse), Sanitized([], asked[i].plugins, parse), json);
  }

  lemma SameListIff(a: seq<Plugin>, b: seq<Plugin>, json: Json)
    requires RoundTrips(json)
    ensures json.marshal(a) == json.marshal(b) <==> a == b
  {
    assert json.unmarshal(json.marshal(a)) == Some(a) && json.unmarshal(json.marshal(b)) == Some(b);
  }
}
