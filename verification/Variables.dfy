/** Expansion of secret values in a datasource
    (api/v1beta1/grafanadatasource_types.go, ExpandVariables). */
module Variables {
  import opened Wrappers
  import opened Strings
  import opened Substitution

  type Secrets = map<string, string>

  /** The two spellings of a reference to `key`, in the order the source tries them. */
  function KeyRules(key: string, value: string): seq<Rule> {
    [Rule("$" + key, value), Rule("${" + key + "}", value)]
  }

  /** The rules a loop over the map runs when Go hands out the keys in this order. */
  function VariableRules(order: seq<string>, secrets: Secrets): (rules: seq<Rule>)
    requires forall k | k in order :: k in secrets
    ensures forall r | r in rules :: r.pattern != "" && r.pattern[0] == '$'
  {
    if order == [] then []
    else KeyRules(order[0], secrets[order[0]]) + VariableRules(order[1..], secrets)
  }

  /** What Kubernetes allows in a secret key rules out '$', '{' and '}'. */
  predicate LegalKey(key: string) {
    key != "" && '$' !in key && '{' !in key && '}' !in key
  }

  predicate LegalSecrets(secrets: Secrets) {
    forall k | k in secrets :: LegalKey(k) && '$' !in secrets[k]
  }

  predicate PrefixFree(keys: set<string>) {
    forall a, b | a in keys && b in keys && HasPrefix(a, b) :: a == b
  }

  /** The length of a reference to `key` at the start of `s`, 0 if there is none. */
  function RefLength(s: string, key: string): (n: nat)
    ensures n <= |s|
  {
    if HasPrefix(s, "$" + key) then |key| + 1
    else if HasPrefix(s, "${" + key + "}") then |key| + 3
    else 0
  }

  ghost predicate StartsWithReference(secrets: Secrets, s: string) {
    exists k :: k in secrets && RefLength(s, k) > 0
  }

  /** Every '$' begins a reference to a known key. */
  ghost predicate AllReferencesKnown(secrets: Secrets, s: string) {
    forall i | 0 <= i < |s| && s[i] == '$' :: StartsWithReference(secrets, s[i..])
  }

  /** The intended meaning, with no mention of any order: scan once, and put the value of
      the referenced key in place of each reference. */
  ghost function Expanded(secrets: Secrets, s: string): string
    decreases |s|
  {
    if s == "" then ""
    else if StartsWithReference(secrets, s) then
      var k :| k in secrets && RefLength(s, k) > 0;
      secrets[k] + Expanded(secrets, s[RefLength(s, k)..])
    else [s[0]] + Expanded(secrets, s[1..])
  }

  /** What a rule list built from an order contains. */
  lemma {:induction false} RulesOfKeys(order: seq<string>, secrets: Secrets)
    requires forall k | k in order :: k in secrets
    ensures forall r :: r in VariableRules(order, secrets) <==>
      exists k :: k in order && r in KeyRules(k, secrets[k])
  {
    if order != [] {
      RulesOfKeys(order[1..], secrets);
      assert forall k :: k in order <==> k == order[0] || k in order[1..];
    }
  }

  /** The character after the '$' tells the two spellings apart. */
  lemma ReferenceShape(s: string, key: string)
    requires LegalKey(key)
    ensures HasPrefix(s, "$" + key) ==> 1 < |s| && s[0] == '$' && s[1] != '{' && HasPrefix(s[1..], key)
    ensures HasPrefix(s, "${" + key + "}") ==> 1 < |s| && s[0] == '$' && s[1] == '{'
  {
    assert key[0] in key;
    if HasPrefix(s, "$" + key) {
      assert s[1] == ("$" + key)[1] && s[1..][..|key|] == ("$" + key)[1..];
    }
    if HasPrefix(s, "${" + key + "}") {
      assert s[..2] == s[..|key| + 3][..2] == "${";
    }
  }

  lemma ReferenceHasDollar(s: string, i: nat, key: string)
    requires i <= |s|
    ensures RefLength(s[i..], key) > 0 ==> '$' in s
  {
    if RefLength(s[i..], key) > 0 {
      assert s[i..][0] == '$' && s[i] == '$';
    }
  }

  lemma ReferencesComparable(a: string, b: string, s: string)
    requires LegalKey(a) && LegalKey(b)
    requires RefLength(s, a) > 0 && RefLength(s, b) > 0
    ensures HasPrefix(a, b) || HasPrefix(b, a)
    ensures a == b || (HasPrefix(s, "$" + a) && HasPrefix(s, "$" + b))
  {
    ReferenceShape(s, a);
    ReferenceShape(s, b);
    if HasPrefix(s, "$" + a) {
      Comparable(s[1..], a, b);
    } else {
      BracedComparable(a, b, s);
    }
  }

  lemma BracedComparable(a: string, b: string, s: string)
    requires '}' !in a && '}' !in b
    requires HasPrefix(s, "${" + a + "}") && HasPrefix(s, "${" + b + "}")
    ensures a == b
  {
    assert s[|a| + 2] == ("${" + a + "}")[|a| + 2] == '}';
    assert s[|b| + 2] == ("${" + b + "}")[|b| + 2] == '}';
    forall i | 0 <= i < |a| ensures s[i + 2] == a[i] && a[i] in a { assert ("${" + a + "}")[i + 2] == a[i]; }
    forall i | 0 <= i < |b| ensures s[i + 2] == b[i] && b[i] in b { assert ("${" + b + "}")[i + 2] == b[i]; }
    assert |a| == |b|;
  }

  lemma RuleIsReference(key: string, value: string, r: Rule, s: string)
    requires LegalKey(key) && r in KeyRules(key, value)
    ensures r.value == value
    ensures HasPrefix(s, r.pattern) ==> RefLength(s, key) == |r.pattern|
    ensures '$' !in r.pattern[1..]
  {
    ReferenceShape(s, key);
  }

  lemma VariableRulesWellFormed(order: seq<string>, secrets: Secrets)
    requires LegalSecrets(secrets) && IsOrder(order, secrets.Keys)
    ensures WellFormed(VariableRules(order, secrets))
  {
    RulesOfKeys(order, secrets);
    forall r | r in VariableRules(order, secrets)
      ensures '$' !in r.pattern[1..] && '$' !in r.value
    {
      var k :| k in order && r in KeyRules(k, secrets[k]);
      RuleIsReference(k, secrets[k], r, "");
    }
  }

  lemma VariableRulesAntichain(order: seq<string>, secrets: Secrets)
    requires LegalSecrets(secrets) && IsOrder(order, secrets.Keys) && PrefixFree(secrets.Keys)
    ensures Antichain(VariableRules(order, secrets))
  {
    RulesOfKeys(order, secrets);
    var rules := VariableRules(order, secrets);
    forall a, b | a in rules && b in rules && HasPrefix(a.pattern, b.pattern)
      ensures a.pattern == b.pattern
    {
      var j :| j in order && a in KeyRules(j, secrets[j]);
      var k :| k in order && b in KeyRules(k, secrets[k]);
      RuleIsReference(j, secrets[j], a, a.pattern);
      RuleIsReference(k, secrets[k], b, a.pattern);
      ReferencesComparable(j, k, a.pattern);
    }
  }

  /** One step of the rule scan is one step of the order-free expansion. */
  lemma ScanStep(order: seq<string>, secrets: Secrets, s: string)
    requires LegalSecrets(secrets) && IsOrder(order, secrets.Keys) && PrefixFree(secrets.Keys)
    ensures var rules := VariableRules(order, secrets); var i := FirstMatch(rules, s);
            && (i < |rules| <==> StartsWithReference(secrets, s))
            && forall k | k in secrets && RefLength(s, k) > 0 ::
                 i < |rules| && rules[i].value == secrets[k] && |rules[i].pattern| == RefLength(s, k)
  {
    RulesOfKeys(order, secrets);
    var rules := VariableRules(order, secrets);
    var i := FirstMatch(rules, s);
    if i < |rules| {
      assert rules[i] in rules;
      var j :| j in order && rules[i] in KeyRules(j, secrets[j]);
      RuleIsReference(j, secrets[j], rules[i], s);
      forall k | k in secrets && RefLength(s, k) > 0 ensures k == j {
        ReferencesComparable(j, k, s);
      }
    } else {
      forall k | k in secrets ensures RefLength(s, k) == 0 {
        assert forall r | r in KeyRules(k, secrets[k]) :: r in rules;
        assert KeyRules(k, secrets[k])[0] in rules && KeyRules(k, secrets[k])[1] in rules;
      }
    }
  }

  lemma {:induction false} ScanIsExpansion(order: seq<string>, secrets: Secrets, s: string)
    requires LegalSecrets(secrets) && IsOrder(order, secrets.Keys) && PrefixFree(secrets.Keys)
    ensures Simultaneous(VariableRules(order, secrets), s) == Expanded(secrets, s)
    decreases |s|
  {
    if s != "" {
      ScanStep(order, secrets, s);
      var rules := VariableRules(order, secrets);
      var i := FirstMatch(rules, s);
      if StartsWithReference(secrets, s) {
        ScanIsExpansion(order, secrets, s[|rules[i].pattern|..]);
      } else {
        ScanIsExpansion(order, secrets, s[1..]);
      }
    }
  }

  lemma {:induction false} ExpandedHasNoDollar(secrets: Secrets, s: string)
    requires LegalSecrets(secrets) && AllReferencesKnown(secrets, s)
    ensures '$' !in Expanded(secrets, s)
    decreases |s|
  {
    if s == "" {
    } else if StartsWithReference(secrets, s) {
      var k :| k in secrets && RefLength(s, k) > 0
        && Expanded(secrets, s) == secrets[k] + Expanded(secrets, s[RefLength(s, k)..]);
      KnownInSuffix(secrets, s, RefLength(s, k));
      ExpandedHasNoDollar(secrets, s[RefLength(s, k)..]);
    } else {
      assert s[0..] == s;
      KnownInSuffix(secrets, s, 1);
      ExpandedHasNoDollar(secrets, s[1..]);
    }
  }

  lemma KnownInSuffix(secrets: Secrets, s: string, n: nat)
    requires AllReferencesKnown(secrets, s) && n <= |s|
    ensures AllReferencesKnown(secrets, s[n..])
  {
    forall i | 0 <= i < |s[n..]| && s[n..][i] == '$' ensures StartsWithReference(secrets, s[n..][i..]) {
      assert s[n..][i..] == s[n + i..];
    }
  }

  /** MAIN: for every iteration order of the map, the nested loop of byte replacements is
      the one order-free expansion, as long as that leaves no reference behind. */
  lemma AnyOrderExpands(order: seq<string>, secrets: Secrets, s: string)
    requires LegalSecrets(secrets) && IsOrder(order, secrets.Keys) && PrefixFree(secrets.Keys)
    requires forall i | 0 <= i <= |Expanded(secrets, s)| ::
               !StartsWithReference(secrets, Expanded(secrets, s)[i..])
    ensures Passes(VariableRules(order, secrets), s) == Expanded(secrets, s)
  {
    var rules, out := VariableRules(order, secrets), Expanded(secrets, s);
    VariableRulesWellFormed(order, secrets);
    VariableRulesAntichain(order, secrets);
    ScanIsExpansion(order, secrets, s);
    assert PatternFree(rules, out) by {
      forall i, r | 0 <= i <= |out| && r in rules ensures !HasPrefix(out[i..], r.pattern) {
        ScanStep(order, secrets, out[i..]);
      }
    }
    PassesAreSimultaneous(rules, s);
  }

  /** MAIN: in particular when every '$' of the text begins a known reference. */
  lemma KnownReferencesExpand(order: seq<string>, secrets: Secrets, s: string)
    requires LegalSecrets(secrets) && IsOrder(order, secrets.Keys) && PrefixFree(secrets.Keys)
    requires AllReferencesKnown(secrets, s)
    ensures Passes(VariableRules(order, secrets), s) == Expanded(secrets, s)
    ensures '$' !in Expanded(secrets, s)
  {
    ExpandedHasNoDollar(secrets, s);
    var out := Expanded(secrets, s);
    forall i | 0 <= i <= |out| ensures !StartsWithReference(secrets, out[i..]) {
      forall k | k in secrets ensures RefLength(out[i..], k) == 0 {
        ReferenceHasDollar(out, i, k);
      }
    }
    AnyOrderExpands(order, secrets, s);
  }

  /** Every order gives the same text, whatever the values and the template. */
  ghost predicate OrderIndependent(keys: set<string>) {
    forall secrets: Secrets, s, p, q ::
      secrets.Keys == keys && LegalSecrets(secrets) && AllReferencesKnown(secrets, s)
      && IsOrder(p, keys) && IsOrder(q, keys)
      ==> Passes(VariableRules(p, secrets), s) == Passes(VariableRules(q, secrets), s)
  }

  /** Running the two rules of `key` on "$key" + rest puts the value in front of the rest. */
  lemma KeyFirst(key: string, order: seq<string>, secrets: Secrets, rest: string)
    requires LegalSecrets(secrets) && IsOrder(order, secrets.Keys)
    requires order != [] && order[0] == key && '$' !in rest
    ensures Passes(VariableRules(order, secrets), "$" + key + rest) == secrets[key] + rest
  {
    VariableRulesWellFormed(order, secrets);
    var rules, s := VariableRules(order, secrets), "$" + key + rest;
    var r := rules[0];
    assert r == Rule("$" + key, secrets[key]) && r in rules;
    assert s[..|r.pattern|] == r.pattern && s[|r.pattern|..] == rest;
    ReplaceAllSkips(r, rest, "");
    assert rest + "" == rest;
    var out := r.value + rest;
    forall i, q | 0 <= i <= |out| && q in rules[1..] ensures !HasPrefix(out[i..], q.pattern) {
      assert q in rules;
      if i < |out| { assert out[i] in out; NoMatchAwayFromDollar(rules, out[i..]); }
    }
    PassesConsumeDollars(rules[1..], out);
  }

  /** Two keys of which one is a proper prefix of the other: the order shows. */
  lemma PrefixMakesOrderMatter(keys: set<string>, a: string, b: string)
    requires forall k | k in keys :: LegalKey(k)
    requires a in keys && b in keys && HasPrefix(a, b) && a != b
    ensures !OrderIndependent(keys)
  {
    var rest := a[|b|..];
    assert a == b + rest;
    assert '$' !in rest by { assert forall c | c in rest :: c in a; }
    var secrets := EmptyForOne(keys, b, "x" + rest);
    var p := OrderStartingWith(keys, a);
    var q := OrderStartingWith(keys, b);
    TwoOrders(secrets, a, b, rest, p, q);
  }

  /** Secrets in which one key has the empty value and all others share a value. */
  lemma EmptyForOne(keys: set<string>, b: string, value: string) returns (secrets: Secrets)
    requires (forall k | k in keys :: LegalKey(k)) && b in keys && '$' !in value
    ensures secrets.Keys == keys && LegalSecrets(secrets)
    ensures |secrets[b]| == 0 && forall k | k in keys && k != b :: |secrets[k]| == |value|
  {
    secrets := map k | k in keys :: if k == b then "" else value;
  }

  lemma TwoOrders(secrets: Secrets, a: string, b: string, rest: string, p: seq<string>, q: seq<string>)
    requires LegalSecrets(secrets) && IsOrder(p, secrets.Keys) && IsOrder(q, secrets.Keys)
    requires p != [] && p[0] == a && q != [] && q[0] == b && a == b + rest
    requires |secrets[a]| != |secrets[b]| + |rest|
    ensures !OrderIndependent(secrets.Keys)
  {
    var s := "$" + a;
    LoneReferenceKnown(secrets, a);
    assert "$" + a + "" == s && "$" + b + rest == s;
    assert '$' !in rest by { assert forall c | c in rest :: c in a; }
    KeyFirst(a, p, secrets, "");
    KeyFirst(b, q, secrets, rest);
    OrderShows(secrets, s, p, q);
  }

  lemma OrderShows(secrets: Secrets, s: string, p: seq<string>, q: seq<string>)
    requires LegalSecrets(secrets) && AllReferencesKnown(secrets, s)
    requires IsOrder(p, secrets.Keys) && IsOrder(q, secrets.Keys)
    requires |Passes(VariableRules(p, secrets), s)| != |Passes(VariableRules(q, secrets), s)|
    ensures !OrderIndependent(secrets.Keys)
  {
  }

  lemma LoneReferenceKnown(secrets: Secrets, a: string)
    requires a in secrets && LegalKey(a)
    ensures AllReferencesKnown(secrets, "$" + a)
  {
    var s := "$" + a;
    assert forall i | 0 < i < |s| :: s[i] == a[i - 1] && a[i - 1] in a;
    forall i | 0 <= i < |s| && s[i] == '$' ensures StartsWithReference(secrets, s[i..]) {
      assert s[0..] == s && RefLength(s, a) > 0;
    }
  }

  /** MAIN: the exact condition under which Go's random map order cannot be seen. */
  lemma OrderIndependentIffPrefixFree(keys: set<string>)
    requires forall k | k in keys :: LegalKey(k)
    ensures OrderIndependent(keys) <==> PrefixFree(keys)
  {
    if PrefixFree(keys) {
      forall secrets: Secrets, s, p, q | secrets.Keys == keys && LegalSecrets(secrets)
        && AllReferencesKnown(secrets, s) && IsOrder(p, keys) && IsOrder(q, keys)
        ensures Passes(VariableRules(p, secrets), s) == Passes(VariableRules(q, secrets), s)
      {
        KnownReferencesExpand(p, secrets, s);
        KnownReferencesExpand(q, secrets, s);
      }
    } else {
      var a, b :| a in keys && b in keys && HasPrefix(a, b) && a != b;
      PrefixMakesOrderMatter(keys, a, b);
    }
  }

  /** A template as its author sees it. */
  datatype Token = Text(text: string) | Bare(key: string) | Braced(key: string)

  function Render(tokens: seq<Token>): string {
    if tokens == [] then ""
    else (match tokens[0]
          case Text(t) => t
          case Bare(k) => "$" + k
          case Braced(k) => "${" + k + "}") + Render(tokens[1..])
  }

  function Substituted(tokens: seq<Token>, secrets: Secrets): string
    requires forall t | t in tokens && !t.Text? :: t.key in secrets
  {
    if tokens == [] then ""
    else (match tokens[0]
          case Text(t) => t
          case Bare(k) => secrets[k]
          case Braced(k) => secrets[k]) + Substituted(tokens[1..], secrets)
  }

  lemma {:induction false} ExpandedSkips(secrets: Secrets, w: string, s: string)
    requires '$' !in w
    ensures Expanded(secrets, w + s) == w + Expanded(secrets, s)
  {
    if w == "" {
      assert w + s == s;
    } else {
      assert !StartsWithReference(secrets, w + s) by {
        forall k | k in secrets ensures RefLength(w + s, k) == 0 {
          assert (w + s)[0] == w[0] && w[0] in w;
        }
      }
      assert (w + s)[1..] == w[1..] + s;
      ExpandedSkips(secrets, w[1..], s);
      SplitHead(w, Expanded(secrets, s));
    }
  }

  /** MAIN: on a template of known references and '$'-free literals, expansion replaces
      each reference token by its value and nothing else. */
  lemma {:induction false} ExpandedRendersTokens(tokens: seq<Token>, secrets: Secrets)
    requires LegalSecrets(secrets) && PrefixFree(secrets.Keys)
    requires forall t | t in tokens :: if t.Text? then '$' !in t.text else t.key in secrets
    ensures Expanded(secrets, Render(tokens)) == Substituted(tokens, secrets)
    ensures AllReferencesKnown(secrets, Render(tokens))
  {
    if tokens != [] {
      var rest := tokens[1..];
      ExpandedRendersTokens(rest, secrets);
      assert tokens[0] in tokens;
      var w := Render([tokens[0]]);
      assert [tokens[0]][1..] == [] && w + Render([]) == w;
      assert Render(tokens) == w + Render(rest);
      match tokens[0]
      case Text(t) =>
        ExpandedSkips(secrets, t, Render(rest));
        KnownAfter(secrets, t, Render(rest));
      case Bare(k) =>
        assert w == "$" + k;
        ReferenceFirst(secrets, k, w, Render(rest));
      case Braced(k) =>
        assert w == "${" + k + "}";
        ReferenceFirst(secrets, k, w, Render(rest));
    }
  }

  lemma KnownAfter(secrets: Secrets, w: string, s: string)
    requires AllReferencesKnown(secrets, s)
    requires '$' !in w || (w != "" && '$' !in w[1..] && StartsWithReference(secrets, w + s))
    ensures AllReferencesKnown(secrets, w + s)
  {
    assert (w + s)[0..] == w + s;
    assert forall i | 0 < i < |w| :: w[i] in w && w[i] == w[1..][i - 1];
    forall i | 0 <= i < |w + s| && (w + s)[i] == '$' ensures StartsWithReference(secrets, (w + s)[i..]) {
      if |w| <= i {
        assert (w + s)[i..] == s[i - |w|..];
      }
    }
  }

  lemma ReferenceFirst(secrets: Secrets, key: string, w: string, s: string)
    requires LegalSecrets(secrets) && PrefixFree(secrets.Keys) && key in secrets
    requires w == "$" + key || w == "${" + key + "}"
    requires AllReferencesKnown(secrets, s)
    ensures Expanded(secrets, w + s) == secrets[key] + Expanded(secrets, s)
    ensures AllReferencesKnown(secrets, w + s)
  {
    var r := Rule(w, secrets[key]);
    assert r in KeyRules(key, secrets[key]) by {
      assert KeyRules(key, secrets[key])[0].pattern == "$" + key;
      assert KeyRules(key, secrets[key])[1].pattern == "${" + key + "}";
    }
    assert HasPrefix(w + s, w) && (w + s)[|w|..] == s;
    RuleIsReference(key, secrets[key], r, w + s);
    forall k | k in secrets && RefLength(w + s, k) > 0 ensures k == key {
      ReferencesComparable(key, k, w + s);
    }
    KnownAfter(secrets, w, s);
  }

  /** The inner loop, over the patterns of one key. */
  method ReplaceEach(s: string, rules: seq<Rule>) returns (raw: string)
    requires forall r | r in rules :: r.pattern != ""
    ensures raw == Passes(rules, s)
  {
    raw := s;
    for m := 0 to |rules|
      invariant Passes(rules[m..], raw) == Passes(rules, s)
    {
      assert rules[m..][1..] == rules[m + 1..];
      raw := ReplaceAll(raw, rules[m]);
    }
  }

  /** The datasource custom resource: `datasource` is what marshalling its spec gives, absent when the
      spec is nil. */
  class GrafanaDatasource {
    var datasource: Option<Result<string>>

    constructor (datasource: Option<Result<string>>)
      ensures this.datasource == datasource
    {
      this.datasource := datasource;
    }

    /** `order` is the order in which Go's range statement hands out the map. */
    method ExpandVariables(variables: Secrets, order: seq<string>) returns (result: Result<string>)
      requires IsOrder(order, variables.Keys)
      ensures result.Err? <==> datasource.None? || datasource.value.Err?
      ensures result.Ok? ==> result == Ok(Passes(VariableRules(order, variables), datasource.value.value))
      ensures result.Ok? && LegalSecrets(variables) && PrefixFree(variables.Keys)
              && AllReferencesKnown(variables, datasource.value.value)
              ==> result == Ok(Expanded(variables, datasource.value.value))
    {
      if datasource.None? {
        return Err("data source is empty, can't expand variables");
      }
      if datasource.value.Err? {
        return datasource.value;
      }
      ghost var text := datasource.value.value;
      var raw := datasource.value.value;
      for n := 0 to |order|
        invariant Passes(VariableRules(order[n..], variables), raw)
               == Passes(VariableRules(order, variables), text)
      {
        var key := order[n];
        var rules := KeyRules(key, variables[key]);
        ghost var rest := VariableRules(order[n + 1..], variables);
        assert order[n..][1..] == order[n + 1..];
        assert VariableRules(order[n..], variables) == rules + rest;
        PassesConcat(rules, rest, raw);
        raw := ReplaceEach(raw, rules);
      }
      if LegalSecrets(variables) && PrefixFree(variables.Keys) && AllReferencesKnown(variables, text) {
        KnownReferencesExpand(order, variables, text);
      }
      return Ok(raw);
    }
  }
}
