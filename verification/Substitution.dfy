/** Repeated `bytes.ReplaceAll` as one simultaneous substitution.

    Both variable expansion in datasources and input mapping in dashboards run
    `bytes.ReplaceAll` once per rule over a growing result. This module says when
    that sequence of passes is the single left-to-right scan a user expects. */
module Substitution {

  /** One replacement rule: every occurrence of `pattern` becomes `value`. */
  datatype Rule = Rule(pattern: string, value: string)

  predicate HasPrefix(s: string, p: string) {
    |p| <= |s| && s[..|p|] == p
  }

  /** `bytes.ReplaceAll`: leftmost, non-overlapping. The empty pattern, which the
      library treats specially, never arises: every pattern starts with '$'. */
  function ReplaceAll(s: string, r: Rule): string
    requires r.pattern != ""
  {
    if s == "" then ""
    else if HasPrefix(s, r.pattern) then r.value + ReplaceAll(s[|r.pattern|..], r)
    else [s[0]] + ReplaceAll(s[1..], r)
  }

  /** One pass of `ReplaceAll` per rule, in list order. */
  function Passes(rules: seq<Rule>, s: string): string
    requires forall r | r in rules :: r.pattern != ""
  {
    if rules == [] then s else Passes(rules[1..], ReplaceAll(s, rules[0]))
  }

  /** The index of the first rule that applies at the start of `s`, or |rules|. */
  function FirstMatch(rules: seq<Rule>, s: string): (i: nat)
    ensures i <= |rules|
    ensures i < |rules| ==> HasPrefix(s, rules[i].pattern)
    ensures forall j | 0 <= j < i :: !HasPrefix(s, rules[j].pattern)
  {
    if rules == [] then 0
    else if HasPrefix(s, rules[0].pattern) then 0
    else 1 + FirstMatch(rules[1..], s)
  }

  /** The simultaneous substitution: one scan in which the first applicable rule fires
      and its value is never looked at again. */
  function Simultaneous(rules: seq<Rule>, s: string): string
    requires forall r | r in rules :: r.pattern != ""
    decreases |s|
  {
    if s == "" then ""
    else
      var i := FirstMatch(rules, s);
      if i < |rules| then rules[i].value + Simultaneous(rules, s[|rules[i].pattern|..])
      else [s[0]] + Simultaneous(rules, s[1..])
  }

  /** A pattern is a '$' followed by '$'-free text, and no value brings in a '$'. */
  predicate WellFormed(rules: seq<Rule>) {
    forall r | r in rules ::
      r.pattern != "" && r.pattern[0] == '$' && '$' !in r.pattern[1..] && '$' !in r.value
  }

  /** No pattern is a proper prefix of another. */
  predicate Antichain(rules: seq<Rule>) {
    forall a, b | a in rules && b in rules && HasPrefix(a.pattern, b.pattern) :: a.pattern == b.pattern
  }

  /** No rule applies at any position of `s`. */
  predicate PatternFree(rules: seq<Rule>, s: string) {
    forall i, r | 0 <= i <= |s| && r in rules :: !HasPrefix(s[i..], r.pattern)
  }

  lemma PatternFreeSuffix(rules: seq<Rule>, a: string, b: string)
    requires PatternFree(rules, a + b)
    ensures PatternFree(rules, b)
  {
    forall i, r | 0 <= i <= |b| && r in rules ensures !HasPrefix(b[i..], r.pattern) {
      assert (a + b)[|a| + i..] == b[i..];
    }
  }

  /** Prefixes of one string are comparable. */
  lemma Comparable(s: string, p: string, q: string)
    requires HasPrefix(s, p) && HasPrefix(s, q)
    ensures HasPrefix(p, q) || HasPrefix(q, p)
  {
    if |q| <= |p| {
      assert p[..|q|] == s[..|p|][..|q|] == q;
    } else {
      assert q[..|p|] == s[..|q|][..|p|] == p;
    }
  }

  lemma NoMatchAwayFromDollar(rules: seq<Rule>, s: string)
    requires WellFormed(rules) && s != "" && s[0] != '$'
    ensures forall r | r in rules :: !HasPrefix(s, r.pattern)
    ensures FirstMatch(rules, s) == |rules|
  {
    forall r | r in rules ensures !HasPrefix(s, r.pattern) {
      assert r.pattern[0] == '$';
    }
  }

  lemma SplitHead(t: string, u: string)
    requires t != ""
    ensures [t[0]] + (t[1..] + u) == t + u
  {
  }

  /** '$'-free text passes through the scan unchanged. */
  lemma {:induction false} SimultaneousSkips(rules: seq<Rule>, w: string, s: string)
    requires WellFormed(rules) && '$' !in w
    ensures Simultaneous(rules, w + s) == w + Simultaneous(rules, s)
  {
    if w == "" {
      assert w + s == s;
    } else {
      NoMatchAwayFromDollar(rules, w + s);
      assert (w + s)[1..] == w[1..] + s;
      SimultaneousSkips(rules, w[1..], s);
      SplitHead(w, Simultaneous(rules, s));
    }
  }

  /** '$'-free text passes through one pass unchanged. */
  lemma {:induction false} ReplaceAllSkips(r: Rule, w: string, s: string)
    requires WellFormed([r]) && '$' !in w
    ensures ReplaceAll(w + s, r) == w + ReplaceAll(s, r)
  {
    assert r in [r];
    if w == "" {
      assert w + s == s;
    } else {
      NoMatchAwayFromDollar([r], w + s);
      assert (w + s)[1..] == w[1..] + s;
      ReplaceAllSkips(r, w[1..], s);
      SplitHead(w, ReplaceAll(s, r));
    }
  }

  /** A one-pass scan over a pattern that the rule does not match steps over the whole pattern. */
  lemma ReplaceAllSkipsPattern(r: Rule, q: string, t: string)
    requires WellFormed([r]) && q != "" && q[0] == '$' && '$' !in q[1..]
    requires !HasPrefix(q + t, r.pattern)
    ensures ReplaceAll(q + t, r) == q + ReplaceAll(t, r)
  {
    assert (q + t)[1..] == q[1..] + t;
    ReplaceAllSkips(r, q[1..], t);
    assert [q[0]] + (q[1..] + ReplaceAll(t, r)) == q + ReplaceAll(t, r);
  }

  /** The rule that fires depends only on the pattern found, not on the text after it. */
  lemma {:induction false} FirstMatchDetermined(rules: seq<Rule>, s: string, i: nat, t: string)
    requires Antichain(rules) && i == FirstMatch(rules, s) < |rules|
    requires HasPrefix(t, rules[i].pattern)
    ensures FirstMatch(rules, t) == i
  {
    forall j | 0 <= j < i ensures !HasPrefix(t, rules[j].pattern) {
      assert rules[j] in rules && rules[i] in rules;
      if HasPrefix(t, rules[j].pattern) {
        Comparable(t, rules[i].pattern, rules[j].pattern);
      }
    }
  }

  /** Running the first rule as a pass of its own does not change the simultaneous result. */
  lemma {:induction false} PassThenScan(rules: seq<Rule>, s: string)
    requires rules != [] && WellFormed(rules) && Antichain(rules)
    requires PatternFree(rules, Simultaneous(rules, s))
    ensures WellFormed([rules[0]]) && WellFormed(rules[1..])
    ensures Simultaneous(rules[1..], ReplaceAll(s, rules[0])) == Simultaneous(rules, s)
    decreases |s|
  {
    var r, rest := rules[0], rules[1..];
    if s == "" {
    } else if HasPrefix(s, r.pattern) {
      var t := s[|r.pattern|..];
      PatternFreeSuffix(rules, r.value, Simultaneous(rules, t));
      PassThenScan(rules, t);
      SimultaneousSkips(rest, r.value, ReplaceAll(t, r));
    } else {
      var i := FirstMatch(rules, s);
      if i < |rules| {
        PassThenScanOther(rules, s, i);
      } else {
        PassThenScanNone(rules, s);
      }
    }
  }

  lemma {:induction false} PassThenScanOther(rules: seq<Rule>, s: string, i: nat)
    requires rules != [] && s != "" && WellFormed(rules) && Antichain(rules)
    requires PatternFree(rules, Simultaneous(rules, s))
    requires 0 < i == FirstMatch(rules, s) < |rules|
    ensures Simultaneous(rules[1..], ReplaceAll(s, rules[0])) == Simultaneous(rules, s)
    decreases |s|, 0
  {
    var r, rest := rules[0], rules[1..];
    var q := rules[i].pattern;
    var t := s[|q|..];
    assert s == q + t;
    assert rules[i] in rules;
    ReplaceAllSkipsPattern(r, q, t);
    PatternFreeSuffix(rules, rules[i].value, Simultaneous(rules, t));
    PassThenScan(rules, t);
    var t' := ReplaceAll(t, r);
    assert rest[i - 1] == rules[i];
    assert FirstMatch(rest, s) == i - 1;
    FirstMatchDetermined(rest, s, i - 1, q + t');
    assert (q + t')[|q|..] == t';
  }

  /** A pattern that would match one character before `t` is still there after scanning `t`. */
  lemma MatchSurvives(rules: seq<Rule>, c: char, t: string, q: Rule)
    requires WellFormed(rules) && q in rules && HasPrefix([c] + t, q.pattern)
    ensures HasPrefix([c] + Simultaneous(rules, t), q.pattern)
  {
    var w := q.pattern[1..];
    assert w == ([c] + t)[..|w| + 1][1..] == t[..|w|];
    assert t == w + t[|w|..];
    SimultaneousSkips(rules, w, t[|w|..]);
    assert q.pattern == [c] + w;
  }

  lemma {:induction false} PassThenScanNone(rules: seq<Rule>, s: string)
    requires rules != [] && s != "" && WellFormed(rules) && Antichain(rules)
    requires PatternFree(rules, Simultaneous(rules, s))
    requires FirstMatch(rules, s) == |rules|
    ensures Simultaneous(rules[1..], ReplaceAll(s, rules[0])) == Simultaneous(rules, s)
    decreases |s|, 0
  {
    var r, rest := rules[0], rules[1..];
    var t := s[1..];
    assert !HasPrefix(s, rules[0].pattern);
    PatternFreeSuffix(rules, [s[0]], Simultaneous(rules, t));
    PassThenScan(rules, t);
    var t' := ReplaceAll(t, r);
    var s' := [s[0]] + t';
    assert Simultaneous(rules, s)[0..] == [s[0]] + Simultaneous(rest, t');
    forall q | q in rest ensures !HasPrefix(s', q.pattern) {
      if HasPrefix(s', q.pattern) {
        assert s'[1..] == t' && q in rules;
        MatchSurvives(rest, s[0], t', q);
      }
    }
    assert s'[1..] == t';
  }

  /** MAIN: when the simultaneous result has no pattern left in it, the passes compute it. */
  lemma {:induction false} PassesAreSimultaneous(rules: seq<Rule>, s: string)
    requires WellFormed(rules) && Antichain(rules)
    requires PatternFree(rules, Simultaneous(rules, s))
    ensures Passes(rules, s) == Simultaneous(rules, s)
  {
    if rules == [] {
      NoRules(s);
    } else {
      PassThenScan(rules, s);
      PassesAreSimultaneous(rules[1..], ReplaceAll(s, rules[0]));
    }
  }

  lemma {:induction false} PassesConcat(a: seq<Rule>, b: seq<Rule>, s: string)
    requires forall r | r in a + b :: r.pattern != ""
    ensures Passes(a + b, s) == Passes(b, Passes(a, s))
  {
    if a == [] {
      assert a + b == b;
    } else {
      assert (a + b)[1..] == a[1..] + b && (a + b)[0] == a[0] && a[0] in a + b;
      assert forall r | r in a[1..] + b :: r in a + b;
      PassesConcat(a[1..], b, ReplaceAll(s, a[0]));
    }
  }

  lemma {:induction false} NoRules(s: string)
    ensures Simultaneous([], s) == s
  {
    if s != "" { NoRules(s[1..]); }
  }

  function Dollars(s: string): nat {
    if s == "" then 0 else (if s[0] == '$' then 1 else 0) + Dollars(s[1..])
  }

  lemma {:induction false} DollarsConcat(a: string, b: string)
    ensures Dollars(a + b) == Dollars(a) + Dollars(b)
    ensures Dollars(a) == 0 <==> '$' !in a
  {
    if a == "" {
      assert a + b == b;
    } else {
      assert (a + b)[1..] == a[1..] + b;
      DollarsConcat(a[1..], b);
    }
  }

  /** A pass either finds nothing and changes nothing, or uses up a '$'. */
  lemma {:induction false} PassConsumesDollars(r: Rule, s: string)
    requires WellFormed([r])
    ensures Dollars(ReplaceAll(s, r)) <= Dollars(s)
    ensures PatternFree([r], s) ==> ReplaceAll(s, r) == s
    ensures !PatternFree([r], s) ==> Dollars(ReplaceAll(s, r)) < Dollars(s)
    decreases |s|
  {
    assert r in [r];
    if s == "" {
    } else if HasPrefix(s, r.pattern) {
      var t := s[|r.pattern|..];
      PassConsumesDollars(r, t);
      DollarsConcat(r.value, ReplaceAll(t, r));
      assert s == r.pattern + t;
      DollarsConcat(r.pattern, t);
      assert s[0..] == s;
    } else {
      PassConsumesDollars(r, s[1..]);
      NoneAtHead(r, s);
    }
  }

  lemma NoneAtHead(r: Rule, s: string)
    requires s != "" && r.pattern != "" && !HasPrefix(s, r.pattern)
    ensures PatternFree([r], s) <==> PatternFree([r], s[1..])
  {
    assert s[0..] == s && r in [r];
    assert forall i | 1 <= i <= |s| :: s[i..] == s[1..][i - 1..];
    if PatternFree([r], s) {
      assert s == [s[0]] + s[1..];
      PatternFreeSuffix([r], [s[0]], s[1..]);
    }
  }

  lemma {:induction false} PassesConsumeDollars(rules: seq<Rule>, s: string)
    requires WellFormed(rules)
    ensures Dollars(Passes(rules, s)) <= Dollars(s)
    ensures PatternFree(rules, s) ==> Passes(rules, s) == s
    ensures !PatternFree(rules, s) ==> Dollars(Passes(rules, s)) < Dollars(s)
  {
    if rules != [] {
      var r, s' := rules[0], ReplaceAll(s, rules[0]);
      PassConsumesDollars(r, s);
      PassesConsumeDollars(rules[1..], s');
      assert rules == [r] + rules[1..];
      assert PatternFree(rules, s) <==> PatternFree([r], s) && PatternFree(rules[1..], s);
    }
  }

  /** MAIN: the exact condition. The passes agree with the simultaneous substitution and are
      settled after one round if and only if that substitution leaves no pattern behind. */
  lemma SettledIffPatternFree(rules: seq<Rule>, s: string)
    requires WellFormed(rules) && Antichain(rules)
    ensures var out := Simultaneous(rules, s);
            PatternFree(rules, out) <==> Passes(rules, s) == out && Passes(rules, out) == out
  {
    var out := Simultaneous(rules, s);
    if PatternFree(rules, out) {
      PassesAreSimultaneous(rules, s);
    }
    PassesConsumeDollars(rules, out);
  }
}
