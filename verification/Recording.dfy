/** What a lost answer does to the record of a dashboard: the write took effect, but the operator
    saw an error and did not list it (controllers/dashboard_controller.go, onDashboardCreated). */
module Recording {
  import opened Wrappers
  import opened Cluster
  import opened Creation

  /** The write to instance i takes effect although its answer is lost; nothing else fails. */
  function LostAt(i: nat): Faults { (j, c) => if j == i && c == NewDashboard then Applied else NoFault }

  /** The same instance, with the dashboard on its server but not in its list. */
  ghost predicate Unlisted(g: Grafana, h: Grafana, cr: Dashboard, text: string) {
    UpToDate(h, cr, text) && h.(dashes := g.dashes, folders := g.folders) == g
  }

  lemma LostWrite(g: Grafana, mem: Dashboard, stored: string, hash: string, i: nat, newId: int, lib: Library,
                  text: string)
    requires !Refuses(g, mem) && Resolved(mem) == Ok(text) && lib.parses(text) && mem.uid !in g.dashes
    ensures var c := CreatedOn(g, mem, stored, hash, i, LostAt(i), newId, lib);
            && !c.ok && Unlisted(g, c.g, mem, text) && c.hash == hash && c.cr == mem.(json := text)
  {
    FolderForShape(g, mem.folderTitle, i, LostAt(i), newId);
  }

  ghost predicate SameRoles(gs: seq<Grafana>, hs: seq<Grafana>) {
    |hs| == |gs| && forall j | 0 <= j < |gs| ::
      hs[j].ns == gs[j].ns && hs[j].ready == gs[j].ready && hs[j].external == gs[j].external
  }

  predicate ValidSource(gs: seq<Grafana>, cr: Dashboard, lib: Library, text: string) {
    MatchingOk(gs, cr) && Delivers(cr, text) && lib.parses(text)
  }

  /** Filling Spec.Json in memory does not block the later rounds. */
  predicate Open(cr: Dashboard, text: string) { IsRaw(cr) || text == "" }

  /** Between the rounds over the instances `gs`. */
  ghost predicate Between(gs: seq<Grafana>, s: Import, cr: Dashboard, text: string) {
    SameRoles(gs, s.gs) && SameResource(cr, s.cr) && s.cr.json in {cr.json, text} && s.hash == s.cr.hash
  }

  predicate TargetIn(gs: seq<Grafana>, cr: Dashboard, n: nat, b: nat)
    requires MatchingOk(gs, cr) && b <= |cr.matching|
  {
    exists m: nat :: n <= m < b && Target(gs, cr, m)
  }

  /** The new hash is saved for another target than the b-th matching instance. */
  predicate OtherSaves(gs: seq<Grafana>, cr: Dashboard, text: string, b: nat)
    requires MatchingOk(gs, cr) && b < |cr.matching|
  {
    TargetIn(gs, cr, 0, b) || (Open(cr, text) && TargetIn(gs, cr, b + 1, |cr.matching|))
  }

  /** The text's hash, if there is a target, and else the given one. */
  function HashAfter(hash: string, target: bool, lib: Library, text: string): string {
    if target then lib.sha(text) else hash
  }

  /** What a round does to the hash and to the other instances. */
  ghost predicate OpenStep(gs: seq<Grafana>, s: Import, s': Import, cr: Dashboard, n: nat, lib: Library, text: string)
    requires MatchingOk(gs, cr) && n < |cr.matching|
  {
    && Between(gs, s', cr, text) && s'.hash == HashAfter(s.hash, Target(gs, cr, n), lib, text)
    && |s'.gs| == |s.gs| && forall j | 0 <= j < |s.gs| && j != cr.matching[n] :: s'.gs[j] == s.gs[j]
  }

  /** One fault-free round: on a target the hash is that of the text afterwards. */
  lemma OpenRound(gs: seq<Grafana>, s: Import, cr: Dashboard, n: nat, f: Faults, newId: int, lib: Library, text: string)
    requires ValidSource(gs, cr, lib, text) && Open(cr, text) && n < |cr.matching| && Between(gs, s, cr, text)
    requires QuietAt(f, cr.matching[n])
    ensures OpenStep(gs, s, ImportOne(s, cr.matching[n], cr.json, f, newId, lib), cr, n, lib, text)
  {
    var i := cr.matching[n];
    RoundKeepsRest(s, i, cr.json, f, newId, lib);
    ResolvedBetween(cr, s.cr, text);
    if Target(gs, cr, n) {
      RoundOnTarget(s.gs[i], s.cr, cr.json, s.hash, i, f, newId, lib, text);
    }
  }

  lemma OneMoreTarget(gs: seq<Grafana>, cr: Dashboard, n: nat, b: nat)
    requires MatchingOk(gs, cr) && n < b <= |cr.matching|
    ensures TargetIn(gs, cr, n, b) <==> Target(gs, cr, n) || TargetIn(gs, cr, n + 1, b)
  {
  }

  /** The rounds from the n-th on, and an instance x that they leave alone. */
  lemma {:induction false} OpenRounds(gs: seq<Grafana>, s: Import, cr: Dashboard, n: nat, x: nat, f: Faults,
                                      newIds: nat -> int, lib: Library, text: string)
    requires ValidSource(gs, cr, lib, text) && Open(cr, text) && n <= |cr.matching| && Between(gs, s, cr, text)
    requires x < |gs| && forall m: nat | n <= m < |cr.matching| :: cr.matching[m] != x && QuietAt(f, cr.matching[m])
    ensures var r := ImportFrom(s, cr.matching, n, cr.json, f, newIds, lib);
            && SameRoles(gs, r.gs) && r.gs[x] == s.gs[x]
            && r.hash == HashAfter(s.hash, TargetIn(gs, cr, n, |cr.matching|), lib, text)
    decreases |cr.matching| - n
  {
    if n < |cr.matching| {
      var s' := ImportOne(s, cr.matching[n], cr.json, f, newIds(cr.matching[n]), lib);
      OpenRound(gs, s, cr, n, f, newIds(cr.matching[n]), lib, text);
      OpenRounds(gs, s', cr, n + 1, x, f, newIds, lib, text);
      OneMoreTarget(gs, cr, n, |cr.matching|);
    }
  }

  /** Beside another source the filled Spec.Json is refused in every later round. */
  lemma {:induction false} RefusedRounds(s: Import, cr: Dashboard, n: nat, f: Faults, newIds: nat -> int, lib: Library,
                                         text: string)
    requires MatchingOk(s.gs, cr) && Delivers(cr, text) && !IsRaw(cr) && text != "" && n <= |cr.matching|
    requires SameResource(cr, s.cr) && s.cr.json == text
    ensures var r := ImportFrom(s, cr.matching, n, cr.json, f, newIds, lib); r.gs == s.gs && r.hash == s.hash
    decreases |cr.matching| - n
  {
    if n < |cr.matching| {
      var i := cr.matching[n];
      ResolvedBetween(cr, s.cr, text);
      var s' := ImportOne(s, i, cr.json, f, newIds(i), lib);
      assert s'.gs == s.gs && s'.cr == s.cr && s'.hash == s.hash;
      RefusedRounds(s', cr, n + 1, f, newIds, lib, text);
    }
  }

  lemma RoundThenRest(t: Import, u: Import, cr: Dashboard, b: nat, f: Faults, newIds: nat -> int, lib: Library)
    requires MatchingOk(t.gs, cr) && b < |cr.matching|
    requires u == ImportOne(t, cr.matching[b], cr.json, f, newIds(cr.matching[b]), lib)
    ensures ImportFrom(t, cr.matching, b, cr.json, f, newIds, lib)
         == ImportFrom(u, cr.matching, b + 1, cr.json, f, newIds, lib)
  {
  }

  ghost predicate QuietIn(f: Faults, matching: seq<nat>, n: nat, b: nat)
    requires b <= |matching|
  {
    forall m: nat | n <= m < b :: QuietAt(f, matching[m])
  }

  /** The state before the b-th round. */
  function RoundsTo(s: Import, cr: Dashboard, n: nat, b: nat, f: Faults, newIds: nat -> int, lib: Library): (t: Import)
    requires n <= b <= |cr.matching| && forall m | 0 <= m < |cr.matching| :: cr.matching[m] < |s.gs|
    ensures |t.gs| == |s.gs|
    decreases b - n
  {
    if n == b then s
    else
      RoundsTo(ImportOne(s, cr.matching[n], cr.json, f, newIds(cr.matching[n]), lib), cr, n + 1, b, f, newIds, lib)
  }

  lemma {:induction false} RoundsGoOn(s: Import, cr: Dashboard, n: nat, b: nat, f: Faults, newIds: nat -> int,
                                      lib: Library)
    requires MatchingOk(s.gs, cr) && n <= b <= |cr.matching|
    ensures ImportFrom(s, cr.matching, n, cr.json, f, newIds, lib)
         == ImportFrom(RoundsTo(s, cr, n, b, f, newIds, lib), cr.matching, b, cr.json, f, newIds, lib)
    decreases b - n
  {
    if n < b {
      var s' := ImportOne(s, cr.matching[n], cr.json, f, newIds(cr.matching[n]), lib);
      RoundThenRest(s, s', cr, n, f, newIds, lib);
      RoundsGoOn(s', cr, n + 1, b, f, newIds, lib);
    }
  }

  /** What every round keeps, all of them keep. */
  lemma {:induction false} RoundsKeep(s: Import, cr: Dashboard, n: nat, b: nat, f: Faults, newIds: nat -> int,
                                      lib: Library, inv: (Import, nat) -> bool)
    requires MatchingOk(s.gs, cr) && n <= b <= |cr.matching| && inv(s, n)
    requires forall u: Import, m: nat | n <= m < b && |u.gs| == |s.gs| && inv(u, m) ::
               inv(ImportOne(u, cr.matching[m], cr.json, f, newIds(cr.matching[m]), lib), m + 1)
    ensures inv(RoundsTo(s, cr, n, b, f, newIds, lib), b)
    decreases b - n
  {
    if n < b {
      var s' := ImportOne(s, cr.matching[n], cr.json, f, newIds(cr.matching[n]), lib);
      RoundsKeep(s', cr, n + 1, b, f, newIds, lib, inv);
    }
  }

  /** Up to the b-th, the rounds keep the state that `RoundState` describes. */
  lemma RoundsUpTo(gs: seq<Grafana>, s: Import, cr: Dashboard, lib: Library, text: string, n: nat, b: nat, f: Faults,
                   newIds: nat -> int)
    requires MatchingOk(gs, cr) && Delivers(cr, text) && n <= b <= |cr.matching| && RoundState(gs, s, cr, lib, text, n)
    requires QuietIn(f, cr.matching, n, b)
    ensures RoundState(gs, RoundsTo(s, cr, n, b, f, newIds, lib), cr, lib, text, b)
  {
    ghost var inv := (u: Import, m: nat) => m <= |cr.matching| && RoundState(gs, u, cr, lib, text, m);
    forall u: Import, m: nat | n <= m < b && |u.gs| == |s.gs| && inv(u, m)
      ensures inv(ImportOne(u, cr.matching[m], cr.json, f, newIds(cr.matching[m]), lib), m + 1)
    {
      OneRound(gs, u, cr, lib, text, m, f, newIds(cr.matching[m]));
    }
    RoundsKeep(s, cr, n, b, f, newIds, lib, inv);
  }

  lemma RoundStateRoles(gs: seq<Grafana>, s: Import, cr: Dashboard, lib: Library, text: string, n: nat)
    requires MatchingOk(gs, cr) && n <= |cr.matching| && RoundState(gs, s, cr, lib, text, n)
    ensures SameRoles(gs, s.gs)
  {
    forall j: nat | j < |gs|
      ensures s.gs[j].ns == gs[j].ns && s.gs[j].ready == gs[j].ready && s.gs[j].external == gs[j].external
    {
      if j in cr.matching[..n] {
        var m: nat :| m < n && cr.matching[m] == j;
        assert AfterImport(gs, s.gs, cr, lib, text, m);
      }
    }
  }

  lemma QuietElsewhere(gs: seq<Grafana>, cr: Dashboard, b: nat)
    requires MatchingOk(gs, cr) && b < |cr.matching|
    ensures forall m: nat | m < |cr.matching| && m != b :: QuietAt(LostAt(cr.matching[b]), cr.matching[m])
  {
  }

  /** The round in which the answer is lost. */
  lemma LostRound(gs: seq<Grafana>, t: Import, cr: Dashboard, b: nat, newIds: nat -> int, lib: Library, text: string)
    returns (u: Import)
    requires ValidSource(gs, cr, lib, text) && b < |cr.matching| && RoundState(gs, t, cr, lib, text, b)
    requires Target(gs, cr, b) && !Blocked(gs, cr, lib, text, b) && cr.uid !in gs[cr.matching[b]].dashes
    ensures u == ImportOne(t, cr.matching[b], cr.json, LostAt(cr.matching[b]), newIds(cr.matching[b]), lib)
    ensures Between(gs, u, cr, text) && u.cr.json == text
    ensures Unlisted(gs[cr.matching[b]], u.gs[cr.matching[b]], cr, text)
    ensures u.hash == HashAfter(cr.hash, TargetIn(gs, cr, 0, b), lib, text)
  {
    var i := cr.matching[b];
    u := ImportOne(t, i, cr.json, LostAt(i), newIds(i), lib);
    assert i !in cr.matching[..b];
    RoundStateRoles(gs, t, cr, lib, text, b);
    ResolvedBetween(cr, t.cr, text);
    LostWrite(t.gs[i], t.cr, cr.json, t.hash, i, newIds(i), lib, text);
    RoundKeepsRest(t, i, cr.json, LostAt(i), newIds(i), lib);
    assert TargetBefore(gs, cr, b) <==> TargetIn(gs, cr, 0, b);
  }

  /** The rounds before this one. */
  lemma BeforeLostRound(gs: seq<Grafana>, s: Import, cr: Dashboard, n: nat, b: nat, newIds: nat -> int, lib: Library,
                        text: string) returns (t: Import)
    requires ValidSource(gs, cr, lib, text) && n <= b < |cr.matching| && RoundState(gs, s, cr, lib, text, n)
    ensures RoundState(gs, t, cr, lib, text, b)
    ensures ImportFrom(s, cr.matching, n, cr.json, LostAt(cr.matching[b]), newIds, lib)
         == ImportFrom(t, cr.matching, b, cr.json, LostAt(cr.matching[b]), newIds, lib)
  {
    QuietElsewhere(gs, cr, b);
    t := RoundsTo(s, cr, n, b, LostAt(cr.matching[b]), newIds, lib);
    RoundsUpTo(gs, s, cr, lib, text, n, b, LostAt(cr.matching[b]), newIds);
    RoundsGoOn(s, cr, n, b, LostAt(cr.matching[b]), newIds, lib);
  }

  /** The rounds after it. */
  lemma AfterLostRound(gs: seq<Grafana>, u: Import, cr: Dashboard, b: nat, newIds: nat -> int, lib: Library,
                       text: string)
    requires ValidSource(gs, cr, lib, text) && b < |cr.matching|
    requires Between(gs, u, cr, text) && u.cr.json == text
    ensures var i := cr.matching[b];
            var r := ImportFrom(u, cr.matching, b + 1, cr.json, LostAt(i), newIds, lib);
            && SameRoles(gs, r.gs) && r.gs[i] == u.gs[i]
            && r.hash == HashAfter(u.hash, Open(cr, text) && TargetIn(gs, cr, b + 1, |cr.matching|), lib, text)
  {
    var i := cr.matching[b];
    if Open(cr, text) {
      QuietElsewhere(gs, cr, b);
      OpenRounds(gs, u, cr, b + 1, i, LostAt(i), newIds, lib, text);
    } else {
      RefusedRounds(u, cr, b + 1, LostAt(i), newIds, lib, text);
    }
  }

  /** This round and those after it. */
  lemma FromLostRound(gs: seq<Grafana>, t: Import, cr: Dashboard, b: nat, newIds: nat -> int, lib: Library,
                      text: string)
    requires ValidSource(gs, cr, lib, text) && b < |cr.matching| && RoundState(gs, t, cr, lib, text, b)
    requires Target(gs, cr, b) && !Blocked(gs, cr, lib, text, b) && cr.uid !in gs[cr.matching[b]].dashes
    ensures LostOutcome(gs, ImportFrom(t, cr.matching, b, cr.json, LostAt(cr.matching[b]), newIds, lib), cr, lib, text, b)
  {
    var u := LostRound(gs, t, cr, b, newIds, lib, text);
    RoundThenRest(t, u, cr, b, LostAt(cr.matching[b]), newIds, lib);
    AfterLostRound(gs, u, cr, b, newIds, lib, text);
  }

  /** The state after a reconcile in which the answer of the b-th write is lost. */
  ghost predicate LostOutcome(gs: seq<Grafana>, r: Import, cr: Dashboard, lib: Library, text: string, b: nat)
    requires MatchingOk(gs, cr) && b < |cr.matching|
  {
    && SameRoles(gs, r.gs) && Unlisted(gs[cr.matching[b]], r.gs[cr.matching[b]], cr, text)
    && r.hash == HashAfter(cr.hash, OtherSaves(gs, cr, text, b), lib, text)
  }

  /** The reconcile in which the answer of one write is lost. */
  lemma LostRun(gs: seq<Grafana>, cr: Dashboard, b: nat, newIds: nat -> int, lib: Library, text: string)
    requires ValidSource(gs, cr, lib, text) && b < |cr.matching|
    requires Target(gs, cr, b) && !Blocked(gs, cr, lib, text, b) && cr.uid !in gs[cr.matching[b]].dashes
    ensures LostOutcome(gs, Imported(gs, cr, LostAt(cr.matching[b]), newIds, lib), cr, lib, text, b)
  {
    BeforeRounds(gs, cr, lib, text);
    var t := BeforeLostRound(gs, Import(gs, cr, cr.hash, true), cr, 0, b, newIds, lib, text);
    FromLostRound(gs, t, cr, b, newIds, lib, text);
  }

  datatype Saved = Saved(gs: seq<Grafana>, cr: Dashboard)

  /** The state after n fault-free reconciles. */
  function Later(s: Saved, ids: nat -> (nat -> int), n: nat, lib: Library): (r: Saved)
    requires MatchingOk(s.gs, s.cr)
    ensures |r.gs| == |s.gs| && r.cr == s.cr.(hash := r.cr.hash)
  {
    if n == 0 then s
    else
      var p := Later(s, ids, n - 1, lib);
      var r := Imported(p.gs, p.cr, NoFaults(), ids(n - 1), lib);
      Saved(r.gs, p.cr.(hash := r.hash))
  }

  /** What one fault-free reconcile makes of a saved state. */
  ghost predicate Follows(p: Saved, q: Saved, lib: Library, text: string)
    requires MatchingOk(p.gs, p.cr)
  {
    && q.cr == p.cr.(hash := HashAfter(p.cr.hash, TargetBefore(p.gs, p.cr, |p.cr.matching|), lib, text))
    && SameRoles(p.gs, q.gs) && forall m: nat | m < |p.cr.matching| :: AfterImport(p.gs, q.gs, p.cr, lib, text, m)
  }

  lemma NextFollows(p: Saved, newIds: nat -> int, lib: Library, text: string)
    requires ValidSource(p.gs, p.cr, lib, text)
    ensures var r := Imported(p.gs, p.cr, NoFaults(), newIds, lib);
            Follows(p, Saved(r.gs, p.cr.(hash := r.hash)), lib, text)
  {
    var s, n := Import(p.gs, p.cr, p.cr.hash, true), |p.cr.matching|;
    BeforeRounds(p.gs, p.cr, lib, text);
    Rounds(p.gs, s, p.cr, lib, text, 0, NoFaults(), newIds);
    RoundStateRoles(p.gs, ImportFrom(s, p.cr.matching, 0, p.cr.json, NoFaults(), newIds, lib), p.cr, lib, text, n);
  }

  lemma FollowsValid(p: Saved, q: Saved, lib: Library, text: string)
    requires ValidSource(p.gs, p.cr, lib, text) && Follows(p, q, lib, text)
    ensures ValidSource(q.gs, q.cr, lib, text)
    ensures forall m: nat | m < |p.cr.matching| :: Target(q.gs, q.cr, m) == Target(p.gs, p.cr, m)
  {
    OtherHash(p.gs, q.gs, p.cr, q.cr.hash, text);
  }

  /** A target that is skipped once is skipped again. */
  lemma SkippedAgain(p: Saved, q: Saved, lib: Library, text: string, m: nat)
    requires ValidSource(p.gs, p.cr, lib, text) && Follows(p, q, lib, text) && m < |p.cr.matching|
    requires MatchingOk(q.gs, q.cr) && Skipped(p.gs, p.cr, lib, text, m)
    ensures Skipped(q.gs, q.cr, lib, text, m)
  {
    FollowsValid(p, q, lib, text);
    assert AfterImport(p.gs, q.gs, p.cr, lib, text, m);
  }

  /** So one that blocks the later targets blocks them again. */
  lemma BlockedAgain(p: Saved, q: Saved, lib: Library, text: string, b: nat)
    requires ValidSource(p.gs, p.cr, lib, text) && Follows(p, q, lib, text) && b <= |p.cr.matching|
    requires MatchingOk(q.gs, q.cr) && Blocked(p.gs, p.cr, lib, text, b)
    ensures Blocked(q.gs, q.cr, lib, text, b)
  {
    FollowsValid(p, q, lib, text);
    var k: nat :| k < b && Fills(p.gs, p.cr, lib, text, k);
    if Skipped(p.gs, p.cr, lib, text, k) {
      SkippedAgain(p, q, lib, text, k);
    }
    assert Fills(q.gs, q.cr, lib, text, k);
  }

  /** An instance that receives nothing stays as it is and will receive nothing. */
  lemma UnservedAgain(p: Saved, q: Saved, lib: Library, text: string, b: nat)
    requires ValidSource(p.gs, p.cr, lib, text) && Follows(p, q, lib, text) && b < |p.cr.matching|
    requires MatchingOk(q.gs, q.cr) && !Receives(p.gs, p.cr, lib, text, b)
    ensures q.gs[p.cr.matching[b]] == p.gs[p.cr.matching[b]] && !Receives(q.gs, q.cr, lib, text, b)
  {
    FollowsValid(p, q, lib, text);
    assert AfterImport(p.gs, q.gs, p.cr, lib, text, b);
    if Skipped(p.gs, p.cr, lib, text, b) {
      SkippedAgain(p, q, lib, text, b);
    } else if Blocked(p.gs, p.cr, lib, text, b) {
      BlockedAgain(p, q, lib, text, b);
    }
  }

  lemma OnceServedListed(p: Saved, q: Saved, lib: Library, text: string, b: nat)
    requires ValidSource(p.gs, p.cr, lib, text) && Follows(p, q, lib, text) && b < |p.cr.matching|
    requires Receives(p.gs, p.cr, lib, text, b) || Lists(p.gs[p.cr.matching[b]], p.cr)
    ensures Lists(q.gs[p.cr.matching[b]], p.cr)
  {
    assert AfterImport(p.gs, q.gs, p.cr, lib, text, b);
    AddedKeeps(p.gs[p.cr.matching[b]].status, p.cr.key, p.cr.uid);
  }

  lemma LaterOnce(s: Saved, ids: nat -> (nat -> int), n: nat, lib: Library, text: string)
    requires MatchingOk(s.gs, s.cr)
    requires var p := Later(s, ids, n, lib); ValidSource(p.gs, p.cr, lib, text)
    ensures var p, q := Later(s, ids, n, lib), Later(s, ids, n + 1, lib);
            Follows(p, q, lib, text) && ValidSource(q.gs, q.cr, lib, text)
  {
    var p := Later(s, ids, n, lib);
    NextFollows(p, ids(n), lib, text);
    FollowsValid(p, Later(s, ids, n + 1, lib), lib, text);
  }

  lemma {:induction false} LaterValid(s: Saved, ids: nat -> (nat -> int), n: nat, lib: Library, text: string)
    requires ValidSource(s.gs, s.cr, lib, text)
    ensures var p := Later(s, ids, n, lib); ValidSource(p.gs, p.cr, lib, text)
  {
    if n > 0 {
      var k: nat := n - 1;
      LaterValid(s, ids, k, lib, text);
      LaterOnce(s, ids, k, lib, text);
      assert n == k + 1;
    }
  }

  lemma {:induction false} UnservedForEver(s: Saved, ids: nat -> (nat -> int), n: nat, lib: Library, text: string,
                                           b: nat)
    requires ValidSource(s.gs, s.cr, lib, text) && b < |s.cr.matching| && !Receives(s.gs, s.cr, lib, text, b)
    ensures var p := Later(s, ids, n, lib);
            && ValidSource(p.gs, p.cr, lib, text) && p.gs[s.cr.matching[b]] == s.gs[s.cr.matching[b]]
            && !Receives(p.gs, p.cr, lib, text, b)
  {
    if n > 0 {
      var k: nat := n - 1;
      UnservedForEver(s, ids, k, lib, text, b);
      LaterOnce(s, ids, k, lib, text);
      UnservedAgain(Later(s, ids, k, lib), Later(s, ids, k + 1, lib), lib, text, b);
      assert n == k + 1;
    }
  }

  lemma {:induction false} ListedForEver(s: Saved, ids: nat -> (nat -> int), n: nat, lib: Library, text: string, b: nat)
    requires ValidSource(s.gs, s.cr, lib, text) && b < |s.cr.matching| && n > 0
    requires Receives(s.gs, s.cr, lib, text, b) || Lists(s.gs[s.cr.matching[b]], s.cr)
    ensures Lists(Later(s, ids, n, lib).gs[s.cr.matching[b]], s.cr)
  {
    var k: nat := n - 1;
    LaterValid(s, ids, k, lib, text);
    LaterOnce(s, ids, k, lib, text);
    if k > 0 {
      ListedForEver(s, ids, k, lib, text, b);
    }
    OnceServedListed(Later(s, ids, k, lib), Later(s, ids, k + 1, lib), lib, text, b);
    assert n == k + 1;
  }

  /** MAIN: whatever failed before, the saved state tells whether an instance will ever list the
      resource: any number of fault-free reconciles list it if and only if it is listed already or the
      next one reaches it. This is for every kind of source. */
  lemma ListedLaterIff(s: Saved, ids: nat -> (nat -> int), n: nat, lib: Library, text: string, b: nat)
    requires ValidSource(s.gs, s.cr, lib, text) && b < |s.cr.matching| && n > 0
    ensures Lists(Later(s, ids, n, lib).gs[s.cr.matching[b]], s.cr)
            <==> Lists(s.gs[s.cr.matching[b]], s.cr) || Receives(s.gs, s.cr, lib, text, b)
  {
    if Receives(s.gs, s.cr, lib, text, b) {
      ListedForEver(s, ids, n, lib, text, b);
    } else {
      UnservedForEver(s, ids, n, lib, text, b);
    }
  }

  /** What is saved after the reconcile in which the answer is lost. */
  lemma AfterLostAnswer(gs: seq<Grafana>, cr: Dashboard, b: nat, newIds: nat -> int, lib: Library, text: string)
    returns (s: Saved)
    requires ValidSource(gs, cr, lib, text) && b < |cr.matching|
    requires Target(gs, cr, b) && !Blocked(gs, cr, lib, text, b) && cr.uid !in gs[cr.matching[b]].dashes
    ensures var r := Imported(gs, cr, LostAt(cr.matching[b]), newIds, lib);
            s == Saved(r.gs, cr.(hash := r.hash))
    ensures MatchingOk(s.gs, cr) && MatchingOk(s.gs, s.cr) && Delivers(s.cr, text)
    ensures Unlisted(gs[cr.matching[b]], s.gs[cr.matching[b]], cr, text)
    ensures s.cr.hash == HashAfter(cr.hash, OtherSaves(gs, cr, text, b), lib, text)
    ensures forall m: nat | m < |cr.matching| :: Target(s.gs, s.cr, m) == Target(gs, cr, m)
  {
    LostRun(gs, cr, b, newIds, lib, text);
    var r := Imported(gs, cr, LostAt(cr.matching[b]), newIds, lib);
    s := Saved(r.gs, cr.(hash := r.hash));
    OtherHash(gs, r.gs, cr, r.hash, text);
  }

  lemma OtherHash(gs: seq<Grafana>, hs: seq<Grafana>, cr: Dashboard, hash: string, text: string)
    requires MatchingOk(gs, cr) && Delivers(cr, text) && SameRoles(gs, hs)
    ensures var cr' := cr.(hash := hash);
            && MatchingOk(hs, cr') && Delivers(cr', text)
            && forall m: nat | m < |cr.matching| :: Target(hs, cr', m) == Target(gs, cr, m)
  {
  }

  /** MAIN: the exact condition for a lost answer to be made up for. The target on which the answer
      to a write is lost holds the dashboard; any number of later fault-free reconciles list it if and
      only if the text was changed and no other target saves its hash: there is none before, and none
      after that is not blocked. This is for every kind of source. */
  lemma LostAnswerRecoveredIff(gs: seq<Grafana>, cr: Dashboard, b: nat, newIds: nat -> int, lib: Library, text: string,
                               ids: nat -> (nat -> int), n: nat)
    requires ValidSource(gs, cr, lib, text) && b < |cr.matching|
    requires Target(gs, cr, b) && !Blocked(gs, cr, lib, text, b)
    requires cr.uid !in gs[cr.matching[b]].dashes && !Lists(gs[cr.matching[b]], cr) && n > 0
    ensures var i := cr.matching[b];
            var r := Imported(gs, cr, LostAt(i), newIds, lib);
            && MatchingOk(r.gs, cr) && UpToDate(r.gs[i], cr, text) && !Lists(r.gs[i], cr)
            && (Lists(Later(Saved(r.gs, cr.(hash := r.hash)), ids, n, lib).gs[i], cr)
                <==> lib.sha(text) != cr.hash && !OtherSaves(gs, cr, text, b))
  {
    var s := AfterLostAnswer(gs, cr, b, newIds, lib, text);
    LostReceivesIff(gs, s, cr, lib, text, b);
    ListedLaterIff(s, ids, n, lib, text, b);
  }

  /** After it, the unlisted target is reached again if and only if the new hash is not saved. */
  lemma LostReceivesIff(gs: seq<Grafana>, s: Saved, cr: Dashboard, lib: Library, text: string, b: nat)
    requires MatchingOk(gs, cr) && b < |cr.matching| && Target(gs, cr, b) && ValidSource(s.gs, s.cr, lib, text)
    requires s.cr == cr.(hash := HashAfter(cr.hash, OtherSaves(gs, cr, text, b), lib, text))
    requires cr.uid in s.gs[cr.matching[b]].dashes
    requires forall m: nat | m < |cr.matching| :: Target(s.gs, s.cr, m) == Target(gs, cr, m)
    ensures Receives(s.gs, s.cr, lib, text, b) <==> lib.sha(text) != cr.hash && !OtherSaves(gs, cr, text, b)
  {
    assert TargetBefore(s.gs, s.cr, b) <==> TargetIn(gs, cr, 0, b);
  }

  /** MAIN: in particular with any two targets that are not blocked, in any cluster, the dashboard of the
      one whose answer is lost stays unrecorded, although it is on the server and the reconciles report no change. */
  lemma SecondInstanceStaysUnrecorded(gs: seq<Grafana>, cr: Dashboard, a: nat, b: nat, newIds: nat -> int, lib: Library,
                                      text: string, ids: nat -> (nat -> int), n: nat)
    requires ValidSource(gs, cr, lib, text) && a < |cr.matching| && b < |cr.matching| && a != b
    requires Target(gs, cr, a) && Target(gs, cr, b) && !Blocked(gs, cr, lib, text, b) && (a < b || Open(cr, text))
    requires cr.uid !in gs[cr.matching[b]].dashes && !Lists(gs[cr.matching[b]], cr)
    ensures var i := cr.matching[b];
            var r := Imported(gs, cr, LostAt(i), newIds, lib);
            && MatchingOk(r.gs, cr)
            && var h := Later(Saved(r.gs, cr.(hash := r.hash)), ids, n, lib).gs[i];
               UpToDate(h, cr, text) && !Lists(h, cr)
  {
    var s := AfterLostAnswer(gs, cr, b, newIds, lib, text);
    assert if a < b then TargetIn(gs, cr, 0, b) else TargetIn(gs, cr, b + 1, |cr.matching|);
    LostReceivesIff(gs, s, cr, lib, text, b);
    UnservedForEver(s, ids, n, lib, text, b);
  }
}
