/** Mapping of dashboard inputs to datasources
    (controllers/dashboard_controller.go, resolveDatasources). */
module Inputs {
  import opened Wrappers
  import opened Substitution

  datatype Mapping = Mapping(inputName: string, datasourceName: string)

  function Reference(name: string): string {
    "${" + name + "}"
  }

  function MappingRules(mappings: seq<Mapping>): (rules: seq<Rule>)
    ensures |rules| == |mappings|
    ensures forall i | 0 <= i < |rules| ::
              rules[i] == Rule(Reference(mappings[i].inputName), mappings[i].datasourceName)
  {
    seq(|mappings|, i requires 0 <= i < |mappings| =>
      Rule(Reference(mappings[i].inputName), mappings[i].datasourceName))
  }

  predicate Complete(m: Mapping) {
    m.inputName != "" && m.datasourceName != ""
  }

  /** The outcome of the loop: an error as soon as one mapping is incomplete. */
  function Resolve(mappings: seq<Mapping>, json: string): Result<string> {
    if forall m | m in mappings :: Complete(m) then Ok(Passes(MappingRules(mappings), json))
    else Err("invalid datasource input rule")
  }

  method ResolveDatasources(mappings: seq<Mapping>, json: string) returns (result: Result<string>)
    ensures result == Resolve(mappings, json)
    ensures result.Err? <==> exists m :: m in mappings && (m.inputName == "" || m.datasourceName == "")
  {
    if |mappings| == 0 {
      return Ok(json);
    }
    var dashboardJson := json;
    var rules := MappingRules(mappings);
    for n := 0 to |mappings|
      invariant forall m | m in mappings[..n] :: Complete(m)
      invariant Passes(rules[n..], dashboardJson) == Passes(rules, json)
    {
      var input := mappings[n];
      assert input in mappings;
      if !Complete(input) {
        return Err("invalid datasource input rule");
      }
      assert rules[n..][1..] == rules[n + 1..];
      assert mappings[..n + 1] == mappings[..n] + [input];
      dashboardJson := ReplaceAll(dashboardJson, rules[n]);
    }
    assert mappings[..|mappings|] == mappings;
    return Ok(dashboardJson);
  }

  /** Input names without '$' or '}', datasource names without '$' or '{'. */
  predicate LegalMappings(mappings: seq<Mapping>) {
    forall m | m in mappings ::
      Complete(m) && '$' !in m.inputName && '}' !in m.inputName
      && '$' !in m.datasourceName && '{' !in m.datasourceName
  }

  /** `u`, the text after a "${", reaches a '}' before the next '$'. */
  predicate Closes(u: string) {
    u != "" && u[0] != '$' && (u[0] == '}' || Closes(u[1..]))
  }

  /** Every "${" is closed before the next '$'. */
  predicate ClosedReferences(s: string) {
    s == "" || ((HasPrefix(s, "${") ==> Closes(s[2..])) && ClosedReferences(s[1..]))
  }

  lemma {:induction false} ClosedInSuffix(s: string, n: nat)
    requires ClosedReferences(s) && n <= |s|
    ensures ClosedReferences(s[n..])
  {
    if n == 0 {
      assert s[0..] == s;
    } else {
      ClosedInSuffix(s[1..], n - 1);
      assert s[1..][n - 1..] == s[n..];
    }
  }

  /** A closed reference splits into its name, the '}' and the rest. */
  lemma {:induction false} SplitClosed(u: string) returns (name: string, rest: string)
    requires Closes(u)
    ensures u == name + "}" + rest && '$' !in name && '}' !in name
  {
    if u[0] == '}' {
      name, rest := "", u[1..];
    } else {
      var n, r := SplitClosed(u[1..]);
      name, rest := [u[0]] + n, r;
      assert u == [u[0]] + u[1..];
      assert [u[0]] + (n + "}" + r) == name + "}" + rest;
    }
  }

  lemma LegalRules(mappings: seq<Mapping>)
    requires LegalMappings(mappings)
    ensures WellFormed(MappingRules(mappings)) && Antichain(MappingRules(mappings))
    ensures forall r | r in MappingRules(mappings) ::
              exists m :: m in mappings && r == Rule(Reference(m.inputName), m.datasourceName)
  {
    var rules := MappingRules(mappings);
    forall r | r in rules
      ensures exists m :: m in mappings && r == Rule(Reference(m.inputName), m.datasourceName)
      ensures '$' !in r.pattern[1..] && '$' !in r.value
    {
      var i :| 0 <= i < |rules| && r == rules[i];
      assert mappings[i] in mappings;
      assert r.pattern[1..] == "{" + mappings[i].inputName + "}";
    }
    forall a, b | a in rules && b in rules && HasPrefix(a.pattern, b.pattern)
      ensures a.pattern == b.pattern
    {
      var m :| m in mappings && a == Rule(Reference(m.inputName), m.datasourceName);
      var n :| n in mappings && b == Rule(Reference(n.inputName), n.datasourceName);
      assert a.pattern == Reference(m.inputName) + "";
      SameName(m.inputName, n.inputName, "");
    }
  }

  /** A reference at the start of another names the same input. */
  lemma SameName(name: string, other: string, rest: string)
    requires '}' !in name && '}' !in other
    ensures HasPrefix(Reference(name) + rest, Reference(other)) <==> name == other
  {
    var s := Reference(name) + rest;
    assert s[|name| + 2] == '}' && forall i | 0 <= i < |name| :: s[i + 2] == name[i] && name[i] in name;
    assert Reference(other)[|other| + 2] == '}';
    assert forall i | 0 <= i < |other| :: Reference(other)[i + 2] == other[i] && other[i] in other;
    if HasPrefix(s, Reference(other)) {
      assert forall i | 0 <= i < |other| + 3 :: s[i] == Reference(other)[i];
      assert |name| == |other|;
      assert name == other;
    }
  }

  /** After the scan, the text behind a '$' that no rule took starts with '{' only if it did before. */
  lemma ScanKeepsHead(mappings: seq<Mapping>, t: string)
    requires LegalMappings(mappings)
    ensures forall r | r in MappingRules(mappings) :: r.pattern != ""
    ensures var out := Simultaneous(MappingRules(mappings), t);
            out != "" && out[0] == '{' ==> t != "" && t[0] == '{'
  {
    LegalRules(mappings);
    var rules := MappingRules(mappings);
    var i := FirstMatch(rules, t);
    if i < |rules| {
      assert rules[i] in rules && mappings[i] in mappings;
      assert rules[i].value[0] in rules[i].value;
    }
  }

  /** The scan steps over the name and the braces of a reference whose '$' it has passed. */
  lemma ScanPastReference(rules: seq<Rule>, name: string, rest: string, t: string)
    requires WellFormed(rules) && '$' !in name
    requires "$" + t == Reference(name) + rest
    ensures "$" + Simultaneous(rules, t) == Reference(name) + Simultaneous(rules, rest)
  {
    var w := "{" + name + "}";
    assert t == ("$" + t)[1..] == w + rest;
    SimultaneousSkips(rules, w, rest);
  }

  /** A reference that no rule takes keeps its name. */
  lemma OtherNameStays(mappings: seq<Mapping>, name: string, rest: string, t: string, m: Mapping)
    requires LegalMappings(mappings) && m in mappings && '$' !in name && '}' !in name
    requires "$" + t == Reference(name) + rest && FirstMatch(MappingRules(mappings), "$" + t) == |mappings|
    ensures WellFormed(MappingRules(mappings))
    ensures !HasPrefix("$" + Simultaneous(MappingRules(mappings), t), Reference(m.inputName))
  {
    LegalRules(mappings);
    var rules := MappingRules(mappings);
    ScanPastReference(rules, name, rest, t);
    SameName(name, m.inputName, Simultaneous(rules, rest));
    SameName(name, m.inputName, rest);
    var i :| 0 <= i < |mappings| && mappings[i] == m;
    assert !HasPrefix("$" + t, rules[i].pattern);
  }

  lemma ReferenceStays(mappings: seq<Mapping>, s: string, m: Mapping)
    requires LegalMappings(mappings) && m in mappings && HasPrefix(s, "${") && Closes(s[2..])
    requires FirstMatch(MappingRules(mappings), s) == |mappings|
    ensures WellFormed(MappingRules(mappings))
    ensures !HasPrefix("$" + Simultaneous(MappingRules(mappings), s[1..]), Reference(m.inputName))
  {
    var name, rest := SplitClosed(s[2..]);
    assert s == "${" + s[2..];
    assert s == Reference(name) + rest;
    assert s == "$" + s[1..];
    OtherNameStays(mappings, name, rest, s[1..], m);
  }

  /** An unmatched '$' does not become a reference once the text behind it is scanned. */
  lemma NoNewReference(mappings: seq<Mapping>, s: string, m: Mapping)
    requires LegalMappings(mappings) && m in mappings
    requires s != "" && s[0] == '$' && ClosedReferences(s)
    requires FirstMatch(MappingRules(mappings), s) == |mappings|
    ensures WellFormed(MappingRules(mappings))
    ensures !HasPrefix("$" + Simultaneous(MappingRules(mappings), s[1..]), Reference(m.inputName))
  {
    LegalRules(mappings);
    var rules, t := MappingRules(mappings), s[1..];
    ScanKeepsHead(mappings, t);
    assert Reference(m.inputName)[1] == '{';
    if t != "" && t[0] == '{' {
      assert HasPrefix(s, "${");
      ReferenceStays(mappings, s, m);
    } else {
      assert forall out: string | HasPrefix("$" + out, Reference(m.inputName)) :: ("$" + out)[1] == '{';
    }
  }

  lemma {:induction false} ScanLeavesNoPattern(mappings: seq<Mapping>, s: string)
    requires LegalMappings(mappings) && ClosedReferences(s)
    ensures WellFormed(MappingRules(mappings))
    ensures PatternFree(MappingRules(mappings), Simultaneous(MappingRules(mappings), s))
    decreases |s|
  {
    LegalRules(mappings);
    var rules := MappingRules(mappings);
    if s != "" {
      var i := FirstMatch(rules, s);
      if i < |rules| {
        var t := s[|rules[i].pattern|..];
        assert rules[i] in rules;
        ClosedInSuffix(s, |rules[i].pattern|);
        ScanLeavesNoPattern(mappings, t);
        PatternFreeAfter(rules, rules[i].value, Simultaneous(rules, t));
      } else {
        var out := Simultaneous(rules, s[1..]);
        ScanLeavesNoPattern(mappings, s[1..]);
        forall j, r | 0 <= j <= |[s[0]] + out| && r in rules
          ensures !HasPrefix(([s[0]] + out)[j..], r.pattern)
        {
          if j == 0 {
            assert ([s[0]] + out)[0..] == [s[0]] + out;
            if s[0] == '$' {
              var m :| m in mappings && r == Rule(Reference(m.inputName), m.datasourceName);
              NoNewReference(mappings, s, m);
            } else {
              NoMatchAwayFromDollar(rules, [s[0]] + out);
            }
          } else {
            assert ([s[0]] + out)[j..] == out[j - 1..];
          }
        }
      }
    }
  }

  lemma PatternFreeAfter(rules: seq<Rule>, w: string, s: string)
    requires WellFormed(rules) && '$' !in w && PatternFree(rules, s)
    ensures PatternFree(rules, w + s)
  {
    forall j, r | 0 <= j <= |w + s| && r in rules ensures !HasPrefix((w + s)[j..], r.pattern) {
      if j < |w| {
        assert w[j] in w;
        NoMatchAwayFromDollar(rules, (w + s)[j..]);
      } else {
        assert (w + s)[j..] == s[j - |w|..];
      }
    }
  }

  /** MAIN: resolving is one simultaneous substitution, and resolving the result again, which
      is what the reconcile loop does for the next instance, changes nothing. */
  lemma ResolveIsSimultaneous(mappings: seq<Mapping>, s: string)
    requires LegalMappings(mappings) && ClosedReferences(s)
    ensures WellFormed(MappingRules(mappings))
    ensures Resolve(mappings, s) == Ok(Simultaneous(MappingRules(mappings), s))
    ensures Resolve(mappings, Resolve(mappings, s).value) == Resolve(mappings, s)
  {
    LegalRules(mappings);
    ScanLeavesNoPattern(mappings, s);
    SettledIffPatternFree(MappingRules(mappings), s);
  }

  /** A dashboard text as literals and input references. */
  datatype Piece = Literal(text: string) | Input(name: string)

  function Render(pieces: seq<Piece>): string {
    if pieces == [] then ""
    else (if pieces[0].Literal? then pieces[0].text else Reference(pieces[0].name)) + Render(pieces[1..])
  }

  /** The first mapping of a name wins; a name without a mapping keeps its reference. */
  function Lookup(mappings: seq<Mapping>, name: string): string {
    if mappings == [] then Reference(name)
    else if mappings[0].inputName == name then mappings[0].datasourceName
    else Lookup(mappings[1..], name)
  }

  function Mapped(pieces: seq<Piece>, mappings: seq<Mapping>): string {
    if pieces == [] then ""
    else
      var head := if pieces[0].Literal? then pieces[0].text else Lookup(mappings, pieces[0].name);
      head + Mapped(pieces[1..], mappings)
  }

  /** No "${" starts inside `t` when `s` follows it. */
  predicate PlainBefore(t: string, s: string) {
    t == "" || (!HasPrefix(t + s, "${") && PlainBefore(t[1..], s))
  }

  /** No "${" starts inside a literal, and names are free of '$' and '}'. */
  predicate Lexed(pieces: seq<Piece>) {
    pieces == [] || (
      Lexed(pieces[1..]) &&
      match pieces[0]
      case Literal(t) => PlainBefore(t, Render(pieces[1..]))
      case Input(n) => '$' !in n && '}' !in n
    )
  }

  /** Which mapping fires on a reference is a matter of its name. */
  lemma {:induction false} FirstMatchIsLookup(mappings: seq<Mapping>, name: string, rest: string)
    requires LegalMappings(mappings) && '}' !in name
    ensures var rules := MappingRules(mappings);
            var i := FirstMatch(rules, Reference(name) + rest);
            Lookup(mappings, name) == if i < |rules| then rules[i].value else Reference(name)
    ensures var rules := MappingRules(mappings);
            var i := FirstMatch(rules, Reference(name) + rest);
            i < |rules| ==> rules[i].pattern == Reference(name)
  {
    if mappings != [] {
      FirstMatchIsLookup(mappings[1..], name, rest);
      assert MappingRules(mappings)[1..] == MappingRules(mappings[1..]);
      assert mappings[0] in mappings;
      SameName(name, mappings[0].inputName, rest);
    }
  }

  lemma PrefixOfPrefix(s: string, p: string, q: string)
    requires HasPrefix(p, q)
    ensures HasPrefix(s, p) ==> HasPrefix(s, q)
  {
    if HasPrefix(s, p) {
      assert s[..|q|] == s[..|p|][..|q|];
    }
  }

  /** Where no reference starts, the scan keeps the character. */
  lemma ScanKeepsChar(rules: seq<Rule>, s: string)
    requires WellFormed(rules) && forall r | r in rules :: HasPrefix(r.pattern, "${")
    requires s != "" && !HasPrefix(s, "${")
    ensures Simultaneous(rules, s) == [s[0]] + Simultaneous(rules, s[1..])
  {
    forall i | 0 <= i < |rules| ensures !HasPrefix(s, rules[i].pattern) {
      assert rules[i] in rules;
      PrefixOfPrefix(s, rules[i].pattern, "${");
    }
    assert FirstMatch(rules, s) == |rules|;
  }

  lemma {:induction false} ScanSkipsLiteral(rules: seq<Rule>, t: string, s: string)
    requires WellFormed(rules) && forall r | r in rules :: HasPrefix(r.pattern, "${")
    requires PlainBefore(t, s)
    ensures Simultaneous(rules, t + s) == t + Simultaneous(rules, s)
  {
    if t == "" {
      assert t + s == s;
    } else {
      var whole, rest := t + s, t[1..] + s;
      assert whole[1..] == rest && whole[0] == t[0];
      ScanKeepsChar(rules, whole);
      ScanSkipsLiteral(rules, t[1..], s);
      SplitHead(t, Simultaneous(rules, s));
    }
  }

  /** The scan of a reference gives what its name is mapped to. */
  lemma ScanMapsReference(mappings: seq<Mapping>, n: string, rest: string)
    requires LegalMappings(mappings) && '$' !in n && '}' !in n
    ensures WellFormed(MappingRules(mappings))
    ensures Simultaneous(MappingRules(mappings), Reference(n) + rest)
         == Lookup(mappings, n) + Simultaneous(MappingRules(mappings), rest)
  {
    LegalRules(mappings);
    FirstMatchIsLookup(mappings, n, rest);
    var rules, s := MappingRules(mappings), Reference(n) + rest;
    assert s[|Reference(n)|..] == rest;
    if FirstMatch(rules, s) == |rules| {
      assert s == "$" + s[1..];
      ScanPastReference(rules, n, rest, s[1..]);
    }
  }

  /** MAIN: piece by piece, the scan replaces mapped references and leaves the rest alone. */
  lemma {:induction false} ScanMapsPieces(pieces: seq<Piece>, mappings: seq<Mapping>)
    requires LegalMappings(mappings) && Lexed(pieces)
    ensures WellFormed(MappingRules(mappings))
    ensures Simultaneous(MappingRules(mappings), Render(pieces)) == Mapped(pieces, mappings)
  {
    LegalRules(mappings);
    var rules := MappingRules(mappings);
    if pieces != [] {
      var rest := Render(pieces[1..]);
      ScanMapsPieces(pieces[1..], mappings);
      match pieces[0]
      case Literal(t) =>
        forall r | r in rules ensures HasPrefix(r.pattern, "${") {
          var m :| m in mappings && r == Rule(Reference(m.inputName), m.datasourceName);
        }
        ScanSkipsLiteral(rules, t, rest);
      case Input(n) => ScanMapsReference(mappings, n, rest);
    }
  }

  lemma {:induction false} ClosesWithName(name: string, rest: string)
    requires '$' !in name
    ensures Closes(name + "}" + rest)
  {
    var u := name + "}" + rest;
    if name != "" {
      assert name[0] in name;
      assert u[1..] == name[1..] + "}" + rest;
      ClosesWithName(name[1..], rest);
    }
  }

  lemma {:induction false} ClosedAfter(t: string, s: string)
    requires ClosedReferences(s)
    requires forall i | 0 <= i < |t| :: HasPrefix(t[i..] + s, "${") ==> Closes((t[i..] + s)[2..])
    ensures ClosedReferences(t + s)
  {
    if t == "" {
      assert t + s == s;
    } else {
      assert t[0..] == t && (t + s)[1..] == t[1..] + s;
      forall i | 0 <= i < |t[1..]|
        ensures HasPrefix(t[1..][i..] + s, "${") ==> Closes((t[1..][i..] + s)[2..])
      {
        assert t[1..][i..] == t[i + 1..];
      }
      ClosedAfter(t[1..], s);
    }
  }

  lemma {:induction false} ClosedAfterPlain(t: string, s: string)
    requires ClosedReferences(s) && PlainBefore(t, s)
    ensures ClosedReferences(t + s)
  {
    if t == "" {
      assert t + s == s;
    } else {
      assert (t + s)[1..] == t[1..] + s;
      ClosedAfterPlain(t[1..], s);
    }
  }

  lemma ClosedAfterReference(n: string, rest: string)
    requires ClosedReferences(rest) && '$' !in n
    ensures ClosedReferences(Reference(n) + rest)
  {
    var t := Reference(n);
    forall i | 0 <= i < |t| ensures HasPrefix(t[i..] + rest, "${") ==> Closes((t[i..] + rest)[2..]) {
      if i == 0 {
        assert (t[i..] + rest)[2..] == n + "}" + rest;
        ClosesWithName(n, rest);
      } else {
        assert t[i] == '{' || t[i] == '}' || t[i] == n[i - 2];
        assert t[i..][0] == t[i];
        assert (t[i..] + rest)[0] == t[i..][0];
      }
    }
    ClosedAfter(t, rest);
  }

  /** Texts made of such pieces meet the condition of `ResolveIsSimultaneous`. */
  lemma {:induction false} RenderIsClosed(pieces: seq<Piece>)
    requires Lexed(pieces)
    ensures ClosedReferences(Render(pieces))
  {
    if pieces != [] {
      var rest := Render(pieces[1..]);
      RenderIsClosed(pieces[1..]);
      match pieces[0]
      case Literal(t) =>
        ClosedAfterPlain(t, rest);
      case Input(n) =>
        ClosedAfterReference(n, rest);
    }
  }
}
