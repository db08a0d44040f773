/** Lists of "namespace/name/uid" strings (api/v1beta1/namespaced_resource.go). */
module Resources {
  import opened Wrappers

  datatype Key = Key(ns: string, name: string)

  predicate SlashFree(s: string) { '/' !in s }

  /** `strings.Split(s, "/")`. */
  function Parts(s: string): (parts: seq<string>)
    ensures parts != []
  {
    if s == "" then [""]
    else
      var rest := Parts(s[1..]);
      if s[0] == '/' then [""] + rest else [[s[0]] + rest[0]] + rest[1..]
  }

  /** A string that `Split` does not panic on. */
  predicate Splittable(r: string) { 3 <= |Parts(r)| }

  predicate AllSplittable(list: seq<string>) {
    forall r | r in list :: Splittable(r)
  }

  function Part(r: string, i: nat): string {
    if i < |Parts(r)| then Parts(r)[i] else ""
  }

  function KeyOf(r: string): Key { Key(Part(r, 0), Part(r, 1)) }

  function UidOf(r: string): string { Part(r, 2) }

  function Print(key: Key, uid: string): string {
    key.ns + "/" + key.name + "/" + uid
  }

  method Split(r: string) returns (ns: string, name: string, uid: string)
    requires Splittable(r)
    ensures Key(ns, name) == KeyOf(r) && uid == UidOf(r)
  {
    var parts := Parts(r);
    return parts[0], parts[1], parts[2];
  }

  /** The uid of the first entry of `key`. */
  function Found(list: seq<string>, key: Key): Option<string> {
    if list == [] then None
    else if KeyOf(list[0]) == key then Some(UidOf(list[0]))
    else Found(list[1..], key)
  }

  /** Without the entries of `key`. */
  function Removed(list: seq<string>, key: Key): seq<string> {
    if list == [] then []
    else if KeyOf(list[0]) == key then Removed(list[1..], key)
    else [list[0]] + Removed(list[1..], key)
  }

  function Added(list: seq<string>, key: Key, uid: string): seq<string> {
    if Print(key, uid) in list then list else [Print(key, uid)] + list
  }

  method Find(list: seq<string>, key: Key) returns (found: bool, uid: string)
    requires AllSplittable(list)
    ensures Found(list, key) == if found then Some(uid) else None
  {
    for i := 0 to |list|
      invariant Found(list[i..], key) == Found(list, key)
    {
      assert list[i] in list && list[i..][1..] == list[i + 1..];
      var foundNamespace, foundName, foundUid := Split(list[i]);
      if foundNamespace == key.ns && foundName == key.name {
        return true, foundUid;
      }
    }
    return false, "";
  }

  method Remove(list: seq<string>, key: Key) returns (resources: seq<string>)
    requires AllSplittable(list)
    ensures resources == Removed(list, key)
  {
    resources := [];
    for i := 0 to |list|
      invariant resources + Removed(list[i..], key) == Removed(list, key)
    {
      assert list[i] in list && list[i..][1..] == list[i + 1..];
      var foundNamespace, foundName, _ := Split(list[i]);
      if foundNamespace == key.ns && foundName == key.name {
        continue;
      }
      resources := resources + [list[i]];
    }
  }

  method Add(list: seq<string>, key: Key, uid: string) returns (out: seq<string>)
    ensures out == Added(list, key, uid)
  {
    var resource := Print(key, uid);
    var resources := [resource];
    for i := 0 to |list|
      invariant resource !in list[..i]
      invariant resources == [resource] + list[..i]
    {
      assert list[..i + 1] == list[..i] + [list[i]];
      if list[i] == resource {
        return list;
      }
      resources := resources + [list[i]];
    }
    assert list[..|list|] == list;
    return resources;
  }

  // What the strings mean

  lemma {:induction false} PartsAreSlashFree(s: string)
    ensures forall p | p in Parts(s) :: SlashFree(p)
  {
    if s != "" {
      PartsAreSlashFree(s[1..]);
      var rest := Parts(s[1..]);
      assert rest[0] in rest && forall p | p in rest[1..] :: p in rest;
    }
  }

  lemma {:induction false} PartsOfPrefix(a: string, s: string)
    requires SlashFree(a)
    ensures Parts(a + "/" + s) == [a] + Parts(s)
  {
    var t := a + "/" + s;
    if a == "" {
      assert t[1..] == s;
    } else {
      assert a[0] in a && t[1..] == a[1..] + "/" + s;
      PartsOfPrefix(a[1..], s);
      assert [a[0]] + a[1..] == a;
    }
  }

  lemma {:induction false} PartsOfPlain(s: string)
    requires SlashFree(s)
    ensures Parts(s) == [s]
  {
    if s != "" {
      assert s[0] in s;
      PartsOfPlain(s[1..]);
      assert [s[0]] + s[1..] == s;
    }
  }

  lemma {:induction false} MoreParts(a: string, s: string)
    ensures |Parts(a + "/" + s)| == |Parts(a)| + |Parts(s)|
  {
    var t := a + "/" + s;
    if a == "" {
      assert t[1..] == s;
    } else {
      assert t[1..] == a[1..] + "/" + s;
      MoreParts(a[1..], s);
    }
  }

  /** Whatever goes in, a printed entry never makes `Split` panic. */
  lemma PrintIsSplittable(key: Key, uid: string)
    ensures Splittable(Print(key, uid))
  {
    MoreParts(key.name, uid);
    MoreParts(key.ns, key.name + "/" + uid);
    assert Print(key, uid) == key.ns + "/" + (key.name + "/" + uid);
  }

  /** The entry is namespace, name and uid, in this order, between slashes. */
  lemma PrintedParts(key: Key, uid: string)
    ensures Print(key, uid) == key.ns + "/" + key.name + "/" + uid
    ensures SlashFree(key.ns) && SlashFree(key.name) && SlashFree(uid) ==> Parts(Print(key, uid)) == [key.ns, key.name, uid]
  {
    if SlashFree(key.ns) && SlashFree(key.name) && SlashFree(uid) {
      assert Print(key, uid) == key.ns + "/" + (key.name + "/" + uid);
      PartsOfPrefix(key.ns, key.name + "/" + uid);
      PartsOfPrefix(key.name, uid);
      PartsOfPlain(uid);
    }
  }

  /** MAIN: splitting undoes printing exactly when no part contains a slash. */
  lemma SplitUndoesPrint(key: Key, uid: string)
    ensures KeyOf(Print(key, uid)) == key && UidOf(Print(key, uid)) == uid
       <==> SlashFree(key.ns) && SlashFree(key.name) && SlashFree(uid)
  {
    var r := Print(key, uid);
    PrintIsSplittable(key, uid);
    PartsAreSlashFree(r);
    assert Part(r, 0) in Parts(r) && Part(r, 1) in Parts(r) && Part(r, 2) in Parts(r);
    if SlashFree(key.ns) && SlashFree(key.name) {
      assert r == key.ns + "/" + (key.name + "/" + uid);
      PartsOfPrefix(key.ns, key.name + "/" + uid);
      PartsOfPrefix(key.name, uid);
      if SlashFree(uid) {
        PartsOfPlain(uid);
      }
    }
  }

  lemma KeyOfPrint(key: Key, uid: string)
    requires SlashFree(key.ns) && SlashFree(key.name)
    ensures KeyOf(Print(key, uid)) == key
  {
    assert Print(key, uid) == key.ns + "/" + (key.name + "/" + uid);
    PartsOfPrefix(key.ns, key.name + "/" + uid);
    PartsOfPrefix(key.name, uid);
  }

  /** Every entry is the printed form of its parts, as in any list built by Add and Remove
      from slash-free parts. */
  predicate Printed(list: seq<string>) {
    forall r | r in list :: Splittable(r) && r == Print(KeyOf(r), UidOf(r))
  }

  predicate UniqueKeys(list: seq<string>) {
    forall i, j | 0 <= i < j < |list| :: KeyOf(list[i]) != KeyOf(list[j])
  }

  /** The finite map a list stands for: the first entry of a key counts. */
  function Dict(list: seq<string>): map<Key, string> {
    if list == [] then map[] else Dict(list[1..])[KeyOf(list[0]) := UidOf(list[0])]
  }

  lemma {:induction false} DictKeys(list: seq<string>)
    ensures forall k :: k in Dict(list) <==> exists r :: r in list && KeyOf(r) == k
  {
    if list != [] {
      DictKeys(list[1..]);
      assert forall r :: r in list <==> r == list[0] || r in list[1..];
    }
  }

  /** Find is map lookup. */
  lemma {:induction false} FoundIsLookup(list: seq<string>, key: Key)
    ensures Found(list, key) == if key in Dict(list) then Some(Dict(list)[key]) else None
  {
    if list != [] { FoundIsLookup(list[1..], key); }
  }

  /** Remove drops the entries of the key and no other. */
  lemma {:induction false} RemovedMembers(list: seq<string>, key: Key)
    ensures forall r :: r in Removed(list, key) <==> r in list && KeyOf(r) != key
  {
    if list != [] {
      RemovedMembers(list[1..], key);
      assert forall r :: r in list <==> r == list[0] || r in list[1..];
    }
  }

  /** Remove is map deletion. */
  lemma {:induction false} RemovedIsDeletion(list: seq<string>, key: Key)
    ensures Dict(Removed(list, key)) == Dict(list) - {key}
  {
    if list != [] { RemovedIsDeletion(list[1..], key); }
  }

  lemma {:induction false} RemovedKeepsUnique(list: seq<string>, key: Key)
    requires UniqueKeys(list)
    ensures UniqueKeys(Removed(list, key))
  {
    if list != [] {
      var rest := list[1..];
      assert forall i | 0 <= i < |rest| :: rest[i] == list[i + 1];
      RemovedKeepsUnique(rest, key);
      var out := Removed(rest, key);
      RemovedMembers(rest, key);
      assert forall r | r in rest :: KeyOf(r) != KeyOf(list[0]);
      assert forall i | 0 <= i < |out| :: out[i] in out;
    }
  }

  /** Add is map update, and a key stays unique exactly when it is new or keeps its uid. */
  lemma AddedIsUpdate(list: seq<string>, key: Key, uid: string)
    requires UniqueKeys(list) && Printed(list)
    requires SlashFree(key.ns) && SlashFree(key.name) && SlashFree(uid)
    ensures Dict(Added(list, key, uid)) == Dict(list)[key := uid]
    ensures Printed(Added(list, key, uid))
    ensures UniqueKeys(Added(list, key, uid)) <==> key !in Dict(list) || Dict(list)[key] == uid
  {
    var r := Print(key, uid);
    SplitUndoesPrint(key, uid);
    PrintIsSplittable(key, uid);
    DictKeys(list);
    if r in list {
      UniqueEntry(list, r);
    } else {
      var out := [r] + list;
      assert out[1..] == list;
      if key in Dict(list) {
        var e :| e in list && KeyOf(e) == key;
        UniqueEntry(list, e);
        var j :| 0 <= j < |list| && list[j] == e;
        assert KeyOf(out[0]) == KeyOf(out[j + 1]);
      } else {
        assert forall j | 0 <= j < |list| :: list[j] in list;
      }
    }
  }

  lemma {:induction false} UniqueEntry(list: seq<string>, r: string)
    requires UniqueKeys(list) && r in list
    ensures KeyOf(r) in Dict(list) && Dict(list)[KeyOf(r)] == UidOf(r)
  {
    if list[0] != r {
      var rest := list[1..];
      assert list == [list[0]] + rest && forall i | 0 <= i < |rest| :: rest[i] == list[i + 1];
      UniqueEntry(rest, r);
      var j :| 0 <= j < |rest| && rest[j] == r;
      assert KeyOf(list[0]) != KeyOf(list[j + 1]);
    }
  }

  /** Find after Add returns the added uid, and other keys do not notice. */
  lemma FoundAfterAdded(list: seq<string>, key: Key, uid: string, other: Key)
    requires UniqueKeys(list) && Printed(list)
    requires SlashFree(key.ns) && SlashFree(key.name) && SlashFree(uid)
    ensures Found(Added(list, key, uid), other) == if other == key then Some(uid) else Found(list, other)
  {
    AddedIsUpdate(list, key, uid);
    FoundIsLookup(Added(list, key, uid), other);
    FoundIsLookup(list, other);
  }
}
