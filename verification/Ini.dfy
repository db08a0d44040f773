/** The grafana.ini printer (controllers/config/grafana_ini.go) and a reader for its output. */
module Ini {
  import opened Wrappers
  import opened Strings

  const GRAFANA_DATA_PATH := "/var/lib/grafana"
  const GRAFANA_LOGS_PATH := "/var/log/grafana"
  const GRAFANA_PLUGINS_PATH := "/var/lib/grafana/plugins"
  const GRAFANA_PROVISIONING_PATH := "/etc/grafana/provisioning/"

  type Settings = map<string, string>
  type Sections = map<string, Settings>

  /** Go's map lookup: the zero value stands in for a missing entry. A nil section and a
      missing section are the same here. */
  function Setting(settings: Settings, key: string): string {
    if key in settings then settings[key] else ""
  }

  function Section(cfg: Sections, name: string): Settings {
    if name in cfg then cfg[name] else map[]
  }

  /** The configuration with the four paths that cannot be overridden. */
  function Forced(cfg: Sections): Sections {
    cfg["paths" := Section(cfg, "paths")["data" := GRAFANA_DATA_PATH]["logs" := GRAFANA_LOGS_PATH]
                   ["plugins" := GRAFANA_PLUGINS_PATH]["provisioning" := GRAFANA_PROVISIONING_PATH]]
  }

  /** A configuration without its empty sections. */
  function DropEmpty(cfg: Sections): Sections {
    map n | n in cfg && cfg[n] != map[] :: cfg[n]
  }

  /** What the printed text is about. */
  function Normal(cfg: Sections): Sections {
    DropEmpty(Forced(cfg))
  }

  function SettingLine(key: string, value: string): string {
    key + " = " + value
  }

  function SettingLines(keys: seq<string>, settings: Settings): seq<string> {
    if keys == [] then []
    else [SettingLine(keys[0], Setting(settings, keys[0]))] + SettingLines(keys[1..], settings)
  }

  function Header(name: string): string {
    "[" + name + "]"
  }

  ghost function SectionLines(name: string, settings: Settings): seq<string> {
    [Header(name)] + SettingLines(Ordered(settings.Keys), settings) + [""]
  }

  ghost function SectionsLines(names: seq<string>, cfg: Sections): seq<string> {
    if names == [] then []
    else if Section(cfg, names[0]) == map[] then SectionsLines(names[1..], cfg)
    else SectionLines(names[0], Section(cfg, names[0])) + SectionsLines(names[1..], cfg)
  }

  function Unlines(lines: seq<string>): string {
    if lines == [] then "" else lines[0] + "\n" + Unlines(lines[1..])
  }

  /** Sections and keys in increasing order. */
  ghost function Print(cfg: Sections): string {
    Unlines(SectionsLines(Ordered(cfg.Keys), cfg))
  }

  /** The text for a configuration. */
  ghost function Text(cfg: Sections): string {
    Print(Forced(cfg))
  }

  lemma {:induction false} UnlinesConcat(a: seq<string>, b: seq<string>)
    ensures Unlines(a + b) == Unlines(a) + Unlines(b)
  {
    if a == [] {
      assert a + b == b;
    } else {
      assert (a + b)[1..] == a[1..] + b;
      UnlinesConcat(a[1..], b);
    }
  }

  lemma UnlinesOne(l: string)
    ensures Unlines([l]) == l + "\n"
  {
    assert [l][1..] == [];
    assert l + "\n" + "" == l + "\n";
  }

  lemma UnlinesSection(name: string, settings: Settings)
    ensures Unlines(SectionLines(name, settings))
         == Header(name) + "\n" + Unlines(SettingLines(Ordered(settings.Keys), settings)) + "\n"
  {
    var lines := SettingLines(Ordered(settings.Keys), settings);
    UnlinesOne(Header(name));
    UnlinesOne("");
    UnlinesConcat([Header(name)], lines);
    UnlinesConcat([Header(name)] + lines, [""]);
  }

  /** The configuration map of a Grafana resource, which the printer updates in place. */
  class Config {
    var sections: Sections

    constructor (sections: Sections)
      ensures this.sections == sections
    {
      this.sections := sections;
    }
  }

  method KeysInAnyOrder(all: set<string>) returns (keys: seq<string>)
    ensures Distinct(keys) && forall k :: k in keys <==> k in all
  {
    keys := [];
    var rest := all;
    while rest != {}
      invariant rest <= all && Distinct(keys)
      invariant forall k :: k in keys <==> k in all - rest
    {
      var k :| k in rest;
      DistinctAppend(keys, k);
      keys := keys + [k];
      rest := rest - {k};
    }
  }

  /** Collect the keys as the map hands them out, then sort them. */
  method SortedKeys(all: set<string>) returns (keys: seq<string>)
    ensures keys == Ordered(all)
  {
    var collected := KeysInAnyOrder(all);
    keys := Sort(collected);
    SortKeepsKeys(collected);
    OrderedIs(all, keys);
  }

  method WriteSection(name: string, settings: Settings, sb: string) returns (out: string)
    ensures out == sb + Unlines(SectionLines(name, settings))
  {
    out := sb + Header(name) + "\n";
    var keys := SortedKeys(settings.Keys);
    ghost var start, all := out, Unlines(SettingLines(keys, settings));
    for i := 0 to |keys|
      invariant out + Unlines(SettingLines(keys[i..], settings)) == start + all
    {
      UnlinesSetting(keys, i, settings);
      var line := SettingLine(keys[i], Setting(settings, keys[i]));
      Associate(out, line, "\n", Unlines(SettingLines(keys[i + 1..], settings)));
      out := out + line + "\n";
    }
    out := out + "\n";
    UnlinesSection(name, settings);
    Associate(sb, Header(name), "\n", all + "\n");
    assert Header(name) + "\n" + (all + "\n") == Header(name) + "\n" + all + "\n";
    assert sb + Header(name) + "\n" + (all + "\n") == sb + Header(name) + "\n" + all + "\n";
  }

  lemma Associate(a: string, b: string, c: string, d: string)
    ensures a + b + c + d == a + (b + c + d)
  {
  }

  lemma UnlinesSetting(keys: seq<string>, i: nat, settings: Settings)
    requires i < |keys|
    ensures Unlines(SettingLines(keys[i..], settings))
         == SettingLine(keys[i], Setting(settings, keys[i])) + "\n"
          + Unlines(SettingLines(keys[i + 1..], settings))
  {
    assert keys[i..][1..] == keys[i + 1..];
    var lines := SettingLines(keys[i + 1..], settings);
    assert ([SettingLine(keys[i], Setting(settings, keys[i]))] + lines)[1..] == lines;
  }

  method WriteSections(sections: Sections) returns (text: string)
    ensures text == Print(sections)
  {
    var names := SortedKeys(sections.Keys);
    text := "";
    ghost var target := Unlines(SectionsLines(names, sections));
    ghost var rest := target;
    assert names[0..] == names;
    for i := 0 to |names|
      invariant rest == Unlines(SectionsLines(names[i..], sections)) && text + rest == target
    {
      var settings := Section(sections, names[i]);
      UnlinesSections(names, i, sections);
      rest := Unlines(SectionsLines(names[i + 1..], sections));
      if settings != map[] {
        ghost var section := Unlines(SectionLines(names[i], settings));
        assert text + (section + rest) == text + section + rest;
        text := WriteSection(names[i], settings, text);
      }
    }
    assert names[|names|..] == [];
  }

  lemma UnlinesSections(names: seq<string>, i: nat, cfg: Sections)
    requires i < |names|
    ensures Unlines(SectionsLines(names[i..], cfg))
         == (if Section(cfg, names[i]) == map[] then ""
             else Unlines(SectionLines(names[i], Section(cfg, names[i]))))
            + Unlines(SectionsLines(names[i + 1..], cfg))
  {
    assert names[i..][1..] == names[i + 1..];
    if Section(cfg, names[i]) != map[] {
      UnlinesConcat(SectionLines(names[i], Section(cfg, names[i])), SectionsLines(names[i + 1..], cfg));
    }
  }

  /** `sha` is SHA-256 printed in hexadecimal. A nil map is null. */
  method WriteIni(cfg: Config?, sha: string -> string) returns (text: string, hash: string)
    modifies cfg
    ensures cfg != null ==> cfg.sections == Forced(old(cfg.sections)) && text == Text(old(cfg.sections))
    ensures cfg == null ==> text == Text(map[])
    ensures hash == sha(text)
  {
    var sections := if cfg == null then map[] else cfg.sections;
    if "paths" !in sections {
      sections := sections["paths" := map[]];
    }
    var paths := sections["paths"];
    paths := paths["data" := GRAFANA_DATA_PATH];
    paths := paths["logs" := GRAFANA_LOGS_PATH];
    paths := paths["plugins" := GRAFANA_PLUGINS_PATH];
    paths := paths["provisioning" := GRAFANA_PROVISIONING_PATH];
    sections := sections["paths" := paths];
    assert sections == Forced(if cfg == null then map[] else cfg.sections);
    text := WriteSections(sections);
    hash := sha(text);
    if cfg != null {
      cfg.sections := sections;
    }
  }

  // Reading the text back

  /** The position of the first '\n', or |s|. */
  function LineEnd(s: string): (i: nat)
    ensures i <= |s|
  {
    if s == "" || s[0] == '\n' then 0 else 1 + LineEnd(s[1..])
  }

  function Lines(s: string): seq<string>
    decreases |s|
  {
    if s == "" then []
    else
      var i := LineEnd(s);
      if i == |s| then [s] else [s[..i]] + Lines(s[i + 1..])
  }

  /** The position of the first " = ", or |s|. */
  function Separator(s: string): (i: nat)
    ensures i <= |s|
    ensures i < |s| ==> i + 3 <= |s|
  {
    if |s| < 3 then |s|
    else if s[..3] == " = " then 0
    else 1 + Separator(s[1..])
  }

  predicate IsHeader(line: string) {
    |line| >= 2 && line[0] == '[' && line[|line| - 1] == ']'
  }

  /** Block by block: a header, settings up to a blank line, the next header. */
  function ReadLines(lines: seq<string>, section: Option<string>, acc: Sections): Sections
    decreases |lines|
  {
    if lines == [] then acc
    else
      var line, rest := lines[0], lines[1..];
      match section
      case None =>
        if !IsHeader(line) then ReadLines(rest, None, acc)
        else ReadLines(rest, Some(line[1..|line| - 1]), acc)
      case Some(name) =>
        if line == "" then ReadLines(rest, None, acc)
        else ReadLines(rest, section, ReadSetting(line, name, acc))
  }

  function ReadSetting(line: string, name: string, acc: Sections): Sections {
    var i := Separator(line);
    if i == |line| then acc
    else acc[name := Section(acc, name)[line[..i] := line[i + 3..]]]
  }

  function Read(text: string): Sections {
    ReadLines(Lines(text), None, map[])
  }

  predicate OneLine(s: string) { '\n' !in s }

  /** A key whose own text does not already contain the separator that follows it. */
  predicate UnambiguousKey(key: string) {
    Separator(key + " = ") == |key|
  }

  predicate CleanSettings(settings: Settings) {
    forall k | k in settings :: OneLine(k) && OneLine(settings[k]) && UnambiguousKey(k)
  }

  predicate Clean(cfg: Sections) {
    forall n | n in cfg :: OneLine(n) && CleanSettings(cfg[n])
  }

  lemma {:induction false} LineEndAfter(l: string, rest: string)
    requires OneLine(l)
    ensures LineEnd(l + "\n" + rest) == |l|
  {
    var s := l + "\n" + rest;
    if l != "" {
      assert s[0] == l[0] && l[0] in l;
      assert s[1..] == l[1..] + "\n" + rest;
      LineEndAfter(l[1..], rest);
    }
  }

  lemma {:induction false} LinesOfUnlines(lines: seq<string>)
    requires forall l | l in lines :: OneLine(l)
    ensures Lines(Unlines(lines)) == lines
  {
    if lines != [] {
      var l, rest := lines[0], Unlines(lines[1..]);
      var s := l + "\n" + rest;
      LinesOfUnlines(lines[1..]);
      LineEndAfter(l, rest);
      assert s[..|l|] == l && s[|l| + 1..] == rest;
      assert lines == [l] + lines[1..];
    }
  }

  /** Whether the first separator is the printed one depends on the key alone. */
  lemma {:induction false} SeparatorDependsOnKey(key: string, value: string)
    ensures Separator(key + " = ") <= |key|
    ensures Separator(SettingLine(key, value)) == Separator(key + " = ")
  {
    var s, t := key + " = ", SettingLine(key, value);
    assert t == s + value;
    assert t[..3] == s[..3];
    if key != "" && s[..3] != " = " {
      assert s[1..] == key[1..] + " = " && t[1..] == SettingLine(key[1..], value);
      SeparatorDependsOnKey(key[1..], value);
    }
  }

  lemma {:induction false} PlainKeyUnambiguous(key: string)
    requires '=' !in key
    ensures UnambiguousKey(key)
  {
    var s := key + " = ";
    if key != "" {
      assert s[1..] == key[1..] + " = ";
      PlainKeyUnambiguous(key[1..]);
      assert |key| > 1 ==> key[1] in key;
      assert s[..3][1] == s[1] != '=';
    }
  }

  lemma SettingLineReads(key: string, value: string, name: string, acc: Sections)
    requires UnambiguousKey(key)
    ensures SettingLine(key, value) != ""
    ensures ReadSetting(SettingLine(key, value), name, acc) == acc[name := Section(acc, name)[key := value]]
  {
    SeparatorDependsOnKey(key, value);
    var line := SettingLine(key, value);
    assert line[..|key|] == key && line[|key| + 3..] == value;
  }

  /** `base` overwritten with the named settings. */
  function Filled(base: Settings, keys: seq<string>, settings: Settings): Settings
    decreases |keys|
  {
    if keys == [] then base
    else Filled(base[keys[0] := Setting(settings, keys[0])], keys[1..], settings)
  }

  lemma {:induction false} FilledWith(base: Settings, keys: seq<string>, settings: Settings)
    ensures Filled(base, keys, settings).Keys == base.Keys + set k | k in keys
    ensures forall k | k in Filled(base, keys, settings) ::
              Filled(base, keys, settings)[k] == if k in keys then Setting(settings, k) else base[k]
    decreases |keys|
  {
    if keys != [] {
      FilledWith(base[keys[0] := Setting(settings, keys[0])], keys[1..], settings);
      assert forall k :: k in keys <==> k == keys[0] || k in keys[1..];
    }
  }

  lemma {:induction false} ReadSettings(keys: seq<string>, settings: Settings, name: string, acc: Sections,
                                        rest: seq<string>)
    requires forall k | k in keys :: UnambiguousKey(k)
    ensures ReadLines(SettingLines(keys, settings) + rest, Some(name), acc)
         == ReadLines(rest, Some(name), if keys == [] then acc
                                        else acc[name := Filled(Section(acc, name), keys, settings)])
  {
    if keys == [] {
      assert SettingLines(keys, settings) + rest == rest;
    } else {
      var k, v := keys[0], Setting(settings, keys[0]);
      assert k in keys;
      SettingLineReads(k, v, name, acc);
      var acc' := acc[name := Section(acc, name)[k := v]];
      var more := SettingLines(keys[1..], settings) + rest;
      assert SettingLines(keys, settings) + rest == [SettingLine(k, v)] + more;
      assert ([SettingLine(k, v)] + more)[1..] == more;
      ReadSettings(keys[1..], settings, name, acc', rest);
      FilledStep(keys, settings, name, acc);
    }
  }

  lemma FilledStep(keys: seq<string>, settings: Settings, name: string, acc: Sections)
    requires keys != []
    ensures var acc' := acc[name := Section(acc, name)[keys[0] := Setting(settings, keys[0])]];
            (acc[name := Filled(Section(acc, name), keys, settings)]
             == if keys[1..] == [] then acc' else acc'[name := Filled(Section(acc', name), keys[1..], settings)])
  {
  }

  lemma FilledFresh(settings: Settings)
    ensures Filled(map[], Ordered(settings.Keys), settings) == settings
  {
    OrderedKeys(settings.Keys);
    FilledWith(map[], Ordered(settings.Keys), settings);
  }

  lemma ReadSection(name: string, settings: Settings, acc: Sections, rest: seq<string>)
    requires name !in acc && settings != map[] && CleanSettings(settings)
    ensures ReadLines(SectionLines(name, settings) + rest, None, acc)
         == ReadLines(rest, None, acc[name := settings])
  {
    var keys := Ordered(settings.Keys);
    var lines := SettingLines(keys, settings);
    var header, more := Header(name), [""] + rest;
    assert SectionLines(name, settings) + rest == [header] + (lines + more);
    assert ([header] + (lines + more))[1..] == lines + more;
    assert header[1..|header| - 1] == name;
    OrderedKeys(settings.Keys);
    ReadSettings(keys, settings, name, acc, more);
    FilledFresh(settings);
    assert acc[name := settings] == if keys == [] then acc else acc[name := Filled(map[], keys, settings)];
    assert more[1..] == rest;
  }

  /** The nonempty sections among `names`. */
  function Nonempty(names: seq<string>, cfg: Sections): Sections {
    map n | n in names && Section(cfg, n) != map[] :: Section(cfg, n)
  }

  lemma {:induction false} ReadSections(names: seq<string>, cfg: Sections, acc: Sections)
    requires Distinct(names) && Clean(cfg) && forall n | n in names :: n !in acc
    ensures ReadLines(SectionsLines(names, cfg), None, acc) == acc + Nonempty(names, cfg)
  {
    if names == [] {
      assert acc + Nonempty(names, cfg) == acc;
    } else {
      var n, rest := names[0], names[1..];
      DistinctTail(names);
      var settings := Section(cfg, n);
      if settings == map[] {
        ReadSections(rest, cfg, acc);
        assert Nonempty(names, cfg) == Nonempty(rest, cfg);
      } else {
        var more := SectionsLines(rest, cfg);
        assert SectionsLines(names, cfg) == SectionLines(n, settings) + more;
        ReadSection(n, settings, acc, more);
        ReadSections(rest, cfg, acc[n := settings]);
        NonemptyStep(names, cfg, acc);
      }
    }
  }

  lemma NonemptyStep(names: seq<string>, cfg: Sections, acc: Sections)
    requires names != [] && names[0] !in names[1..] && Section(cfg, names[0]) != map[]
    ensures acc + Nonempty(names, cfg) == acc[names[0] := Section(cfg, names[0])] + Nonempty(names[1..], cfg)
  {
    assert forall n :: n in names <==> n == names[0] || n in names[1..];
  }

  lemma {:induction false} SettingLinesAreLines(keys: seq<string>, settings: Settings)
    requires forall k | k in keys :: OneLine(k) && OneLine(Setting(settings, k))
    ensures forall l | l in SettingLines(keys, settings) :: OneLine(l)
  {
    if keys != [] {
      assert keys[0] in keys && forall k | k in keys[1..] :: k in keys;
      SettingLinesAreLines(keys[1..], settings);
      assert OneLine(SettingLine(keys[0], Setting(settings, keys[0])));
    }
  }

  lemma SectionLinesAreLines(name: string, settings: Settings)
    requires OneLine(name) && CleanSettings(settings)
    ensures forall l | l in SectionLines(name, settings) :: OneLine(l)
  {
    OrderedKeys(settings.Keys);
    SettingLinesAreLines(Ordered(settings.Keys), settings);
    assert OneLine(Header(name));
  }

  lemma {:induction false} SectionsLinesAreLines(names: seq<string>, cfg: Sections)
    requires Clean(cfg)
    ensures forall l | l in SectionsLines(names, cfg) :: OneLine(l)
  {
    if names != [] {
      var n := names[0];
      SectionsLinesAreLines(names[1..], cfg);
      if Section(cfg, n) != map[] {
        SectionLinesAreLines(n, cfg[n]);
        assert SectionsLines(names, cfg) == SectionLines(n, cfg[n]) + SectionsLines(names[1..], cfg);
      }
    }
  }

  /** Reading what was printed gives the nonempty sections. */
  lemma ReadPrinted(cfg: Sections)
    requires Clean(cfg)
    ensures Read(Print(cfg)) == DropEmpty(cfg)
  {
    var names := Ordered(cfg.Keys);
    OrderedKeys(cfg.Keys);
    SectionsLinesAreLines(names, cfg);
    LinesOfUnlines(SectionsLines(names, cfg));
    ReadSections(names, cfg, map[]);
    NonemptyOfAll(names, cfg);
  }

  lemma NonemptyOfAll(names: seq<string>, cfg: Sections)
    requires forall n :: n in names <==> n in cfg.Keys
    ensures map[] + Nonempty(names, cfg) == DropEmpty(cfg)
  {
  }

  lemma ForcedKeysAreClean()
    ensures OneLine("data") && UnambiguousKey("data") && OneLine("logs") && UnambiguousKey("logs")
    ensures OneLine("plugins") && UnambiguousKey("plugins") && OneLine("provisioning") && UnambiguousKey("provisioning")
  {
    PlainKeyUnambiguous("data");
    PlainKeyUnambiguous("logs");
    PlainKeyUnambiguous("plugins");
    PlainKeyUnambiguous("provisioning");
  }

  lemma ForcedValuesAreClean()
    ensures OneLine(GRAFANA_DATA_PATH) && OneLine(GRAFANA_LOGS_PATH) && OneLine("paths")
    ensures OneLine(GRAFANA_PLUGINS_PATH) && OneLine(GRAFANA_PROVISIONING_PATH)
  {
  }

  lemma ForcedIsClean(cfg: Sections)
    requires Clean(cfg)
    ensures Clean(Forced(cfg))
  {
    ForcedKeysAreClean();
    ForcedValuesAreClean();
    var paths := Section(cfg, "paths");
    CleanWith(paths, "data", GRAFANA_DATA_PATH);
    CleanWith(paths["data" := GRAFANA_DATA_PATH], "logs", GRAFANA_LOGS_PATH);
    CleanWith(paths["data" := GRAFANA_DATA_PATH]["logs" := GRAFANA_LOGS_PATH], "plugins", GRAFANA_PLUGINS_PATH);
    CleanWith(paths["data" := GRAFANA_DATA_PATH]["logs" := GRAFANA_LOGS_PATH]["plugins" := GRAFANA_PLUGINS_PATH],
              "provisioning", GRAFANA_PROVISIONING_PATH);
  }

  lemma CleanWith(settings: Settings, key: string, value: string)
    requires CleanSettings(settings) && OneLine(key) && OneLine(value) && UnambiguousKey(key)
    ensures CleanSettings(settings[key := value])
  {
  }

  /** MAIN: reading the printed text returns the forced configuration, without empty sections. */
  lemma ReadBack(cfg: Sections)
    requires Clean(cfg)
    ensures Read(Text(cfg)) == Normal(cfg)
  {
    ForcedIsClean(cfg);
    ReadPrinted(Forced(cfg));
  }

  /** MAIN: what this means for the paths and for everything else. The four paths are fixed, whatever is
      configured for them; all other settings of nonempty sections, and no more, read back. */
  lemma ReadsAsConfigured(cfg: Sections)
    requires Clean(cfg)
    ensures var r := Read(Text(cfg));
            && "paths" in r && {"data", "logs", "plugins", "provisioning"} <= r["paths"].Keys
            && r["paths"]["data"] == "/var/lib/grafana" && r["paths"]["logs"] == "/var/log/grafana"
            && r["paths"]["plugins"] == "/var/lib/grafana/plugins"
            && r["paths"]["provisioning"] == "/etc/grafana/provisioning/"
    ensures var r := Read(Text(cfg));
            && "paths" in r
            && (forall k | k !in {"data", "logs", "plugins", "provisioning"} ::
                  (k in r["paths"] <==> "paths" in cfg && k in cfg["paths"])
                  && (k in r["paths"] ==> r["paths"][k] == cfg["paths"][k]))
            && (forall n | n != "paths" :: (n in r <==> n in cfg && cfg[n] != map[]) && (n in r ==> r[n] == cfg[n]))
  {
    ReadBack(cfg);
    ForcedSettings(cfg);
  }

  lemma ForcedSettings(cfg: Sections)
    ensures var p := Forced(cfg)["paths"];
            && {"data", "logs", "plugins", "provisioning"} <= p.Keys && p != map[]
            && p["data"] == "/var/lib/grafana" && p["logs"] == "/var/log/grafana"
            && p["plugins"] == "/var/lib/grafana/plugins" && p["provisioning"] == "/etc/grafana/provisioning/"
    ensures var p := Forced(cfg)["paths"];
            forall k | k !in {"data", "logs", "plugins", "provisioning"} ::
              (k in p <==> "paths" in cfg && k in cfg["paths"]) && (k in p ==> p[k] == cfg["paths"][k])
  {
    assert |"data"| != |"logs"| || "data"[0] != "logs"[0];
    assert "plugins"[1] != "provisioning"[1];
    assert "data" in Forced(cfg)["paths"];
  }

  // The order of the text

  /** Where each setting stands: its section and key. */
  type Place = (string, string)

  predicate Precedes(p: Place, q: Place) {
    (p.0 != q.0 && Le(p.0, q.0)) || (p.0 == q.0 && p.1 != q.1 && Le(p.1, q.1))
  }

  /** The settings of a text in the order of its lines. */
  function Outline(lines: seq<string>, section: Option<string>): seq<Place>
    decreases |lines|
  {
    if lines == [] then []
    else
      var line, rest := lines[0], lines[1..];
      match section
      case None => Outline(rest, if IsHeader(line) then Some(line[1..|line| - 1]) else None)
      case Some(name) =>
        if line == "" then Outline(rest, None)
        else (if Separator(line) == |line| then [] else [(name, line[..Separator(line)])]) + Outline(rest, section)
  }

  function PlacesIn(name: string, keys: seq<string>): seq<Place> {
    if keys == [] then [] else [(name, keys[0])] + PlacesIn(name, keys[1..])
  }

  ghost function Places(names: seq<string>, cfg: Sections): seq<Place> {
    if names == [] then []
    else if Section(cfg, names[0]) == map[] then Places(names[1..], cfg)
    else PlacesIn(names[0], Ordered(Section(cfg, names[0]).Keys)) + Places(names[1..], cfg)
  }

  lemma OutlineLine(key: string, value: string, name: string, more: seq<string>)
    requires UnambiguousKey(key)
    ensures Outline([SettingLine(key, value)] + more, Some(name)) == [(name, key)] + Outline(more, Some(name))
  {
    SeparatorDependsOnKey(key, value);
    var line := SettingLine(key, value);
    assert line[..|key|] == key && line != "";
    assert ([line] + more)[1..] == more;
  }

  lemma PlacesStep(name: string, keys: seq<string>, tail: seq<Place>)
    requires keys != []
    ensures [(name, keys[0])] + (PlacesIn(name, keys[1..]) + tail) == PlacesIn(name, keys) + tail
  {
  }

  lemma SettingLinesStep(keys: seq<string>, settings: Settings, rest: seq<string>)
    requires keys != []
    ensures SettingLines(keys, settings) + rest
         == [SettingLine(keys[0], Setting(settings, keys[0]))] + (SettingLines(keys[1..], settings) + rest)
  {
  }

  lemma {:induction false} OutlineSettings(keys: seq<string>, settings: Settings, name: string, rest: seq<string>)
    requires forall k | k in keys :: UnambiguousKey(k)
    ensures Outline(SettingLines(keys, settings) + rest, Some(name)) == PlacesIn(name, keys) + Outline(rest, Some(name))
  {
    if keys == [] {
      assert SettingLines(keys, settings) + rest == rest;
    } else {
      var k, v := keys[0], Setting(settings, keys[0]);
      assert k in keys;
      var more := SettingLines(keys[1..], settings) + rest;
      SettingLinesStep(keys, settings, rest);
      OutlineLine(k, v, name, more);
      OutlineSettings(keys[1..], settings, name, rest);
      PlacesStep(name, keys, Outline(rest, Some(name)));
    }
  }

  lemma OutlineSection(name: string, settings: Settings, rest: seq<string>)
    requires CleanSettings(settings)
    ensures Outline(SectionLines(name, settings) + rest, None)
         == PlacesIn(name, Ordered(settings.Keys)) + Outline(rest, None)
  {
    var keys := Ordered(settings.Keys);
    var lines, header, more := SettingLines(keys, settings), Header(name), [""] + rest;
    assert SectionLines(name, settings) + rest == [header] + (lines + more);
    assert ([header] + (lines + more))[1..] == lines + more;
    assert header[1..|header| - 1] == name;
    OrderedKeys(settings.Keys);
    OutlineSettings(keys, settings, name, more);
    assert more[1..] == rest;
  }

  lemma {:induction false} OutlineSections(names: seq<string>, cfg: Sections)
    requires Clean(cfg)
    ensures Outline(SectionsLines(names, cfg), None) == Places(names, cfg)
  {
    if names != [] {
      OutlineSections(names[1..], cfg);
      if Section(cfg, names[0]) != map[] {
        OutlineSection(names[0], Section(cfg, names[0]), SectionsLines(names[1..], cfg));
      }
    }
  }

  ghost predicate Increasing(places: seq<Place>) {
    forall i, j | 0 <= i < j < |places| :: Precedes(places[i], places[j])
  }

  lemma {:induction false} PlacesInAre(name: string, keys: seq<string>)
    ensures |PlacesIn(name, keys)| == |keys|
    ensures forall i | 0 <= i < |keys| :: PlacesIn(name, keys)[i] == (name, keys[i])
  {
    if keys != [] { PlacesInAre(name, keys[1..]); }
  }

  lemma {:induction false} PlacesIncrease(names: seq<string>, cfg: Sections)
    requires Sorted(names) && Distinct(names)
    ensures Increasing(Places(names, cfg))
    ensures forall p | p in Places(names, cfg) :: p.0 in names
  {
    if names != [] {
      DistinctTail(names);
      SortedTail(names);
      PlacesIncrease(names[1..], cfg);
      if Section(cfg, names[0]) != map[] {
        var keys := Ordered(Section(cfg, names[0]).Keys);
        OrderedKeys(Section(cfg, names[0]).Keys);
        PlacesInAre(names[0], keys);
        AppendedIncrease(names, keys, Places(names[1..], cfg));
      }
    }
  }

  lemma AppendedIncrease(names: seq<string>, keys: seq<string>, rest: seq<Place>)
    requires Sorted(names) && Distinct(names) && names != [] && Sorted(keys) && Distinct(keys)
    requires |PlacesIn(names[0], keys)| == |keys|
    requires forall i | 0 <= i < |keys| :: PlacesIn(names[0], keys)[i] == (names[0], keys[i])
    requires Increasing(rest) && forall p | p in rest :: p.0 in names[1..]
    ensures Increasing(PlacesIn(names[0], keys) + rest)
    ensures forall p | p in PlacesIn(names[0], keys) + rest :: p.0 in names
  {
    var first := PlacesIn(names[0], keys);
    forall n | n in names[1..] ensures n != names[0] && Le(names[0], n) {
      var i :| 0 <= i < |names[1..]| && names[1..][i] == n;
      assert names[i + 1] == n;
    }
    forall i, j | 0 <= i < j < |first + rest| ensures Precedes((first + rest)[i], (first + rest)[j]) {
      assert j >= |first| ==> (first + rest)[j] in rest;
    }
  }

  /** MAIN: sections stand in increasing order, and so do the settings within each. */
  lemma TextIsOrdered(cfg: Sections)
    requires Clean(cfg)
    ensures Increasing(Outline(Lines(Text(cfg)), None))
  {
    var names := Ordered(Forced(cfg).Keys);
    ForcedIsClean(cfg);
    OrderedKeys(Forced(cfg).Keys);
    SectionsLinesAreLines(names, Forced(cfg));
    LinesOfUnlines(SectionsLines(names, Forced(cfg)));
    OutlineSections(names, Forced(cfg));
    PlacesIncrease(names, Forced(cfg));
  }

  /** Lines depend only on the nonempty sections and their order. */
  lemma {:induction false} LinesSkipEmpty(names: seq<string>, cfg: Sections, kept: seq<string>)
    requires Sorted(names) && Distinct(names) && Sorted(kept) && Distinct(kept)
    requires forall n :: n in kept <==> n in names && Section(cfg, n) != map[]
    ensures SectionsLines(names, cfg) == SectionsLines(kept, cfg)
  {
    assert forall i | 0 <= i < |kept| :: kept[i] in names;
    if names != [] {
      var n := names[0];
      DistinctTail(names);
      SortedTail(names);
      if Section(cfg, n) == map[] {
        LinesSkipEmpty(names[1..], cfg, kept);
      } else {
        FirstKept(names, kept, n);
        DistinctTail(kept);
        SortedTail(kept);
        LinesSkipEmpty(names[1..], cfg, kept[1..]);
      }
    }
  }

  lemma FirstKept(names: seq<string>, kept: seq<string>, n: string)
    requires names != [] && Sorted(names) && Sorted(kept) && names[0] == n
    requires n in kept && forall k | k in kept :: k in names
    ensures kept != [] && kept[0] == n
  {
    assert kept[0] in kept;
    var i :| 0 <= i < |names| && names[i] == kept[0];
    var j :| 0 <= j < |kept| && kept[j] == n;
    if i > 0 && j > 0 { LeAntisymmetric(n, kept[0]); }
  }

  lemma {:induction false} SameLines(names: seq<string>, a: Sections, b: Sections)
    requires forall n | n in names :: (Section(a, n) == map[] <==> Section(b, n) == map[])
    requires forall n | n in names :: SectionLines(n, Section(a, n)) == SectionLines(n, Section(b, n))
    ensures SectionsLines(names, a) == SectionsLines(names, b)
  {
    if names != [] {
      assert names[0] in names && forall n | n in names[1..] :: n in names;
      SameLines(names[1..], a, b);
    }
  }

  /** Empty sections leave no trace in the text. */
  lemma PrintDropsEmpty(cfg: Sections)
    ensures Print(cfg) == Print(DropEmpty(cfg))
  {
    var names, kept := Ordered(cfg.Keys), Ordered(DropEmpty(cfg).Keys);
    OrderedKeys(cfg.Keys);
    OrderedKeys(DropEmpty(cfg).Keys);
    LinesSkipEmpty(names, cfg, kept);
    SameLines(kept, cfg, DropEmpty(cfg));
  }

  /** MAIN: the text is canonical and injective. Two clean configurations print alike, and so
      leave the pods alone, exactly when they agree after normalisation. */
  lemma SameTextIffSameMeaning(a: Sections, b: Sections)
    requires Clean(a) && Clean(b)
    ensures Text(a) == Text(b) <==> Normal(a) == Normal(b)
  {
    ReadBack(a);
    ReadBack(b);
    PrintDropsEmpty(Forced(a));
    PrintDropsEmpty(Forced(b));
  }

  /** Printing the map that the first call left behind prints the same text. */
  lemma SecondCallSameText(cfg: Sections)
    ensures Text(Forced(cfg)) == Text(cfg)
  {
    ForcedTwice(cfg);
  }

  lemma ForcedTwice(cfg: Sections)
    ensures Forced(Forced(cfg)) == Forced(cfg)
  {
    assert Forced(Forced(cfg))["paths"] == Forced(cfg)["paths"];
  }

  lemma OneSetting(key: string, value: string)
    ensures SettingLines(Ordered(map[key := value].Keys), map[key := value]) == [SettingLine(key, value)]
  {
    var m := map[key := value];
    assert Sorted([key]) && Distinct([key]) && forall k :: k in [key] <==> k in m.Keys;
    OrderedIs(m.Keys, [key]);
    assert [key][1..] == [];
  }

  lemma PrintsAlike(a: Sections, b: Sections)
    requires a.Keys == b.Keys
    requires forall n | n in a.Keys :: (a[n] == map[] <==> b[n] == map[])
    requires forall n | n in a.Keys :: Unlines(SectionLines(n, a[n])) == Unlines(SectionLines(n, b[n]))
    ensures Print(a) == Print(b)
  {
    OrderedKeys(a.Keys);
    SameUnlines(Ordered(a.Keys), a, b);
  }

  lemma ForcedAround(name: string, m: Settings)
    requires name != "paths"
    ensures Forced(map[name := m]) == map[name := m, "paths" := Forced(map[])["paths"]]
  {
  }

  /** Two configurations that differ in one section print alike when its lines do. */
  lemma CollideInSection(name: string, m: Settings, m': Settings)
    requires name != "paths" && m != map[] && m' != map[] && m != m'
    requires Unlines(SectionLines(name, m)) == Unlines(SectionLines(name, m'))
    ensures Text(map[name := m]) == Text(map[name := m']) && Normal(map[name := m]) != Normal(map[name := m'])
  {
    ForcedAround(name, m);
    ForcedAround(name, m');
    CollideBeside(name, "paths", m, m', Forced(map[])["paths"]);
  }

  lemma CollideBeside(name: string, other: string, m: Settings, m': Settings, rest: Settings)
    requires name != other && m != map[] && m' != map[] && m != m'
    requires Unlines(SectionLines(name, m)) == Unlines(SectionLines(name, m'))
    ensures Print(map[name := m, other := rest]) == Print(map[name := m', other := rest])
    ensures DropEmpty(map[name := m, other := rest]) != DropEmpty(map[name := m', other := rest])
  {
    var a, b := map[name := m, other := rest], map[name := m', other := rest];
    assert a.Keys == b.Keys == {name, other};
    PrintsAlike(a, b);
    assert DropEmpty(a)[name] == m && DropEmpty(b)[name] == m';
  }

  lemma {:induction false} SameUnlines(names: seq<string>, a: Sections, b: Sections)
    requires forall n | n in names :: (Section(a, n) == map[] <==> Section(b, n) == map[])
    requires forall n | n in names ::
               Unlines(SectionLines(n, Section(a, n))) == Unlines(SectionLines(n, Section(b, n)))
    ensures Unlines(SectionsLines(names, a)) == Unlines(SectionsLines(names, b))
  {
    if names != [] {
      var n := names[0];
      assert n in names && forall n | n in names[1..] :: n in names;
      SameUnlines(names[1..], a, b);
      UnlinesConcat(SectionLines(n, Section(a, n)), SectionsLines(names[1..], a));
      UnlinesConcat(SectionLines(n, Section(b, n)), SectionsLines(names[1..], b));
    }
  }

  /** MAIN: the condition on keys is needed. Any other key shares its text with a different
      configuration, in any section and for any value. */
  lemma AmbiguousKeyCollides(name: string, key: string, value: string) returns (other: string, rest: string)
    requires name != "paths" && !UnambiguousKey(key)
    ensures Text(map[name := map[key := value]]) == Text(map[name := map[other := rest]])
    ensures Normal(map[name := map[key := value]]) != Normal(map[name := map[other := rest]])
  {
    var line := SettingLine(key, value);
    SeparatorDependsOnKey(key, value);
    var i := Separator(line);
    other, rest := line[..i], line[i + 3..];
    SeparatorFound(line);
    assert SettingLine(other, rest) == line;
    OneSetting(key, value);
    OneSetting(other, rest);
    assert key in map[key := value] && key !in map[other := rest];
    CollideInSection(name, map[key := value], map[other := rest]);
  }

  lemma SplitLater(s: string, i: nat)
    requires s != "" && i + 3 <= |s[1..]| && s[1..] == s[1..][..i] + " = " + s[1..][i + 3..]
    ensures s == s[..i + 1] + " = " + s[i + 4..]
  {
    var rest := s[1..];
    assert s == [s[0]] + rest;
    assert s[..i + 1] == [s[0]] + rest[..i];
    assert s[i + 4..] == rest[i + 3..];
  }

  lemma {:induction false} SeparatorFound(s: string)
    ensures Separator(s) < |s| ==> s == s[..Separator(s)] + " = " + s[Separator(s) + 3..]
  {
    if 3 <= |s| && s[..3] != " = " {
      var rest := s[1..];
      SeparatorFound(rest);
      if Separator(rest) < |rest| {
        SplitLater(s, Separator(rest));
      }
    }
  }

  /** MAIN: line breaks must be excluded too, since a value can smuggle in a second setting. */
  lemma LineBreakCollides(name: string, k: string, v: string, x: string, w: string)
    requires name != "paths" && Le(k, x) && k != x
    ensures Text(map[name := map[k := v + "\n" + SettingLine(x, w)]]) == Text(map[name := map[k := v, x := w]])
    ensures Normal(map[name := map[k := v + "\n" + SettingLine(x, w)]]) != Normal(map[name := map[k := v, x := w]])
  {
    var m, m' := map[k := v + "\n" + SettingLine(x, w)], map[k := v, x := w];
    assert x in m' && x !in m && k in m;
    LineBreakLines(k, v, x, w);
    UnlinesSection(name, m);
    UnlinesSection(name, m');
    CollideInSection(name, m, m');
  }

  lemma LineBreakLines(k: string, v: string, x: string, w: string)
    requires Le(k, x) && k != x
    ensures var m, m' := map[k := v + "\n" + SettingLine(x, w)], map[k := v, x := w];
            Unlines(SettingLines(Ordered(m.Keys), m)) == Unlines(SettingLines(Ordered(m'.Keys), m'))
  {
    var m' := map[k := v, x := w];
    OneSetting(k, v + "\n" + SettingLine(x, w));
    UnlinesOne(SettingLine(k, v + "\n" + SettingLine(x, w)));
    assert Sorted([k, x]) && Distinct([k, x]) && forall j :: j in [k, x] <==> j in m'.Keys;
    OrderedIs(m'.Keys, [k, x]);
    TwoLines(k, v, x, w, m');
    assert SettingLine(k, v + "\n" + SettingLine(x, w)) + "\n"
        == SettingLine(k, v) + "\n" + (SettingLine(x, w) + "\n");
  }

  lemma TwoLines(k: string, v: string, x: string, w: string, m: Settings)
    requires k in m && x in m && m[k] == v && m[x] == w
    ensures Unlines(SettingLines([k, x], m)) == SettingLine(k, v) + "\n" + (SettingLine(x, w) + "\n")
  {
    assert [k, x][1..] == [x] && [x][1..] == [];
    assert SettingLines([x], m) == [SettingLine(x, w)];
    assert SettingLines([k, x], m) == [SettingLine(k, v)] + [SettingLine(x, w)];
    UnlinesConcat([SettingLine(k, v)], [SettingLine(x, w)]);
    UnlinesOne(SettingLine(k, v));
    UnlinesOne(SettingLine(x, w));
  }
}
