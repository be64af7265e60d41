/** The configuration and domain files written for dehydrated, and how they are read back. */
module Dehydrated {
  import opened Wrappers
  import opened Collections
  import opened Text
  import opened ShellValues

  datatype Method = Http | Dns

  datatype Spec = Spec(
    name: string, domains: seq<string>, verb: Method, hook: Option<string>,
    hookEnv: map<string, string>, staging: bool)

  /** Where certificates live, and the hook used for DNS when none is given. */
  datatype Paths = Paths(certs: string, defaultHook: string)

  function Join(dir: string, file: string): string {
    if dir == "" || dir[|dir| - 1] == '/' then dir + file else dir + "/" + file
  }

  // ---------- Validation ----------

  predicate IsAlpha(c: char) {
    'a' <= c <= 'z' || 'A' <= c <= 'Z'
  }

  predicate IsAlnum(c: char) {
    IsAlpha(c) || IsDigit(c)
  }

  predicate ValidName(name: string) {
    && name != "" && name[0] != '.' && name[|name| - 1] != '.' && |name| <= 128
    && forall c | c in name :: IsAlnum(c) || c in "-_."
  }

  predicate ValidEnvName(name: string) {
    name != "" && !IsDigit(name[0]) && forall c | c in name :: IsAlnum(c) || c == '_'
  }

  predicate OneLine(s: string) {
    '\n' !in s && '\r' !in s
  }

  function Hostname(domain: string): string {
    if HasPrefix(domain, "*.") then domain[2..] else domain
  }

  predicate ValidDomain(domain: string) {
    var host := Hostname(domain);
    0 < |host| <= 253 && forall c | c in host :: IsAlnum(c) || c in ".-_"
  }

  // ---------- The configuration file ----------

  datatype Parsed = Parsed(
    ca: Option<string>, challenge: Option<string>, hook: Option<string>, env: map<string, string>,
    domainsPath: Option<string>)

  const NOTHING: Parsed := Parsed(None, None, None, map[], None)

  function Setting(p: Parsed, key: string, value: string): Parsed {
    if key == "CA" then p.(ca := Some(value))
    else if key == "CHALLENGETYPE" then p.(challenge := Some(value))
    else if key == "DOMAINS_TXT" && value != "" then p.(domainsPath := Some(value))
    else if key == "HOOK" && value != "" then p.(hook := Some(value))
    else p
  }

  function ReadSetting(p: Parsed, raw: string): Parsed {
    var line := Trim(raw);
    if line == "" || line[0] == '#' then p
    else if HasPrefix(line, "export ") then
      match SplitOnce(line[7..], '=')
      case None => p
      case Some((name, value)) =>
        if ValidEnvName(Trim(name)) && ShellValue(value).Some? then
          p.(env := p.env[Trim(name) := ShellValue(value).value])
        else p
    else
      match SplitOnce(line, '=')
      case None => p
      case Some((key, value)) =>
        if ShellValue(value).Some? then Setting(p, Trim(key), ShellValue(value).value) else p
  }

  function ReadSettings(p: Parsed, lines: seq<string>): Parsed
    decreases |lines|
  {
    if lines == [] then p else ReadSettings(ReadSetting(p, lines[0]), lines[1..])
  }

  method ParseConfig(contents: string) returns (p: Parsed)
    ensures p == ReadSettings(NOTHING, Lines(contents))
  {
    hide ReadSetting;
    p := NOTHING;
    var lines := Lines(contents);
    var i := 0;
    while i < |lines|
      invariant 0 <= i <= |lines| && ReadSettings(p, lines[i..]) == ReadSettings(NOTHING, lines)
    {
      ghost var before := p;
      p := ParseLine(p, lines[i]);
      assert lines[i..][1..] == lines[i + 1..];
      i := i + 1;
    }
  }

  method ParseLine(p: Parsed, raw: string) returns (p': Parsed)
    ensures p' == ReadSetting(p, raw)
  {
    p' := p;
    var line := Trim(raw);
    if line == "" || line[0] == '#' {
      return;
    }
    if HasPrefix(line, "export ") {
      var split := SplitOnce(line[7..], '=');
      if split.Some? && ValidEnvName(Trim(split.value.0)) {
        var value := ParseShellValue(split.value.1);
        if value.Some? {
          p' := p.(env := p.env[Trim(split.value.0) := value.value]);
        }
      }
      return;
    }
    var split := SplitOnce(line, '=');
    if split.Some? {
      var value := ParseShellValue(split.value.1);
      if value.Some? {
        p' := Setting(p, Trim(split.value.0), value.value);
      }
    }
  }

  // ---------- Writing it ----------

  function SettingLine(key: string, value: string): string {
    key + "=" + ShellQuote(value)
  }

  function ExportLine(name: string, value: string): string {
    "export " + SettingLine(name, value)
  }

  function ChallengeType(verb: Method): string {
    if verb.Http? then "http-01" else "dns-01"
  }

  function Authority(staging: bool): string {
    if staging then "letsencrypt-test" else "letsencrypt"
  }

  /** The hook that is written: a DNS certificate always has one. */
  function HookOf(spec: Spec, paths: Paths): Option<string> {
    if spec.verb.Dns? && spec.hook.None? then Some(paths.defaultHook) else spec.hook
  }

  function DomainsPath(spec: Spec, paths: Paths): string {
    Join(paths.certs, spec.name + ".txt")
  }

  function HookLines(hook: Option<string>): seq<string> {
    if hook.None? then [] else [SettingLine("HOOK", hook.value)]
  }

  function WellKnownLines(spec: Spec, paths: Paths): seq<string> {
    if spec.verb.Http? then [SettingLine("WELLKNOWN", Join(paths.certs, "acme-challenge"))] else []
  }

  function HeadLines(spec: Spec, paths: Paths): seq<string> {
    [SettingLine("CA", Authority(spec.staging)), SettingLine("AUTO_CLEANUP", "yes"),
     SettingLine("DOMAINS_TXT", DomainsPath(spec, paths)), SettingLine("CHALLENGETYPE", ChallengeType(spec.verb))]
  }

  function EnvLines(env: map<string, string>, order: seq<string>): seq<string>
    requires forall name | name in order :: name in env
  {
    if order == [] then [] else [ExportLine(order[0], env[order[0]])] + EnvLines(env, order[1..])
  }

  predicate Writable(spec: Spec, paths: Paths) {
    && ValidName(spec.name)
    && (HookOf(spec, paths).Some? ==> HookOf(spec, paths).value != "" && OneLine(HookOf(spec, paths).value))
    && forall name | name in spec.hookEnv :: ValidEnvName(name) && OneLine(spec.hookEnv[name])
  }

  function ConfigLines(spec: Spec, paths: Paths, order: seq<string>): seq<string>
    requires forall name | name in order :: name in spec.hookEnv
  {
    HeadLines(spec, paths) + WellKnownLines(spec, paths) + HookLines(HookOf(spec, paths))
      + EnvLines(spec.hookEnv, order)
  }

  /** The text, or nothing when the specification is not valid.  The environment comes in an
      order of its names. */
  method RenderConfig(spec: Spec, paths: Paths) returns (text: Option<string>, order: seq<string>)
    ensures Lists(order, spec.hookEnv.Keys)
    ensures text == if Writable(spec, paths) then Some(Joined(ConfigLines(spec, paths, order))) else None
  {
    hide HeadLines, WellKnownLines, HookLines, ValidName, ValidEnvName, OneLine, Join, Joined;
    order := Listed(spec.hookEnv.Keys);
    text := None;
    if !ValidName(spec.name) {
      return;
    }
    var hook := HookOf(spec, paths);
    if hook.Some? && (hook.value == "" || !OneLine(hook.value)) {
      return;
    }
    var lines := HeadLines(spec, paths) + WellKnownLines(spec, paths) + HookLines(hook);
    ghost var head := lines;
    var i := 0;
    while i < |order|
      invariant 0 <= i <= |order|
      invariant lines + EnvLines(spec.hookEnv, order[i..]) == head + EnvLines(spec.hookEnv, order)
      invariant forall name | name in order[..i] :: ValidEnvName(name) && OneLine(spec.hookEnv[name])
    {
      var name := order[i];
      assert name in order;
      if !ValidEnvName(name) || !OneLine(spec.hookEnv[name]) {
        return;
      }
      ghost var before := lines;
      lines := lines + [ExportLine(name, spec.hookEnv[name])];
      assert order[i..][1..] == order[i + 1..];
      assert lines + EnvLines(spec.hookEnv, order[i + 1..]) == before + EnvLines(spec.hookEnv, order[i..]);
      i := i + 1;
    }
    assert order[..i] == order && order[i..] == [];
    assert lines + [] == lines;
    text := Some(Joined(lines));
  }

  // ---------- Reading back what was written ----------

  /** What the configuration file says. */
  function ReadBack(spec: Spec, paths: Paths): Parsed {
    Parsed(Some(Authority(spec.staging)), Some(ChallengeType(spec.verb)), HookOf(spec, paths), spec.hookEnv,
           Some(DomainsPath(spec, paths)))
  }

  predicate PlainKey(key: string) {
    IsWord(key) && '=' !in key && key[0] != '#' && key[0] != 'e'
  }

  /** An assignment comes apart at its first equals sign, whatever the value. */
  lemma AssignmentSplits(key: string, value: string)
    requires '=' !in key
    ensures SplitOnce(SettingLine(key, value), '=') == Some((key, ShellQuote(value)))
    ensures ShellValue(ShellQuote(value)) == Some(value)
    ensures key != "" && !IsSpace(key[0]) ==> Trim(SettingLine(key, value)) == SettingLine(key, value)
  {
    var line, q := SettingLine(key, value), ShellQuote(value);
    SplitAtFirst(key, '=', q);
    assert line == key + ['='] + q;
    ShellRoundTrip(value, "", "");
    assert "" + q + "" == q;
    assert line[|line| - 1] == QUOTE;
    if key != "" && !IsSpace(key[0]) {
      TrimTrimmed(line);
    }
  }

  lemma SettingIsRead(p: Parsed, key: string, value: string)
    requires PlainKey(key)
    ensures ReadSetting(p, SettingLine(key, value)) == Setting(p, key, value)
  {
    hide SplitOnce, Setting, ShellValue, Trim, ShellQuote;
    assert key[0] in key;
    AssignmentSplits(key, value);
    TrimOfWord(key);
  }

  lemma TrimOfWord(w: string)
    requires IsWord(w)
    ensures Trim(w) == w
  {
    assert w[0] in w && w[|w| - 1] in w;
    TrimTrimmed(w);
  }

  lemma ExportIsRead(p: Parsed, name: string, value: string)
    requires ValidEnvName(name)
    ensures ReadSetting(p, ExportLine(name, value)) == p.(env := p.env[name := value])
  {
    hide SplitOnce, ShellValue, Trim, ShellQuote;
    var line := ExportLine(name, value);
    EnvNameIsPlain(name);
    AssignmentSplits(name, value);
    TrimOfWord(name);
    ExportIsTrimmed(name, value);
    assert line[..7] == "export " && line[7..] == SettingLine(name, value);
  }

  lemma EnvNameIsPlain(name: string)
    requires ValidEnvName(name)
    ensures IsWord(name) && '=' !in name
  {
  }

  lemma ExportIsTrimmed(name: string, value: string)
    ensures Trim(ExportLine(name, value)) == ExportLine(name, value)
  {
    var line := ExportLine(name, value);
    assert line[0] == 'e' && line[|line| - 1] == QUOTE;
    TrimTrimmed(line);
  }

  lemma {:induction false} ReadSettingsAppend(p: Parsed, a: seq<string>, b: seq<string>)
    ensures ReadSettings(p, a + b) == ReadSettings(ReadSettings(p, a), b)
    decreases |a|
  {
    hide ReadSetting;
    if a == [] {
      assert a + b == b;
    } else {
      assert (a + b)[1..] == a[1..] + b;
      ReadSettingsAppend(ReadSetting(p, a[0]), a[1..], b);
    }
  }

  lemma {:induction false} EnvIsRead(p: Parsed, env: map<string, string>, order: seq<string>)
    requires forall name | name in order :: name in env && ValidEnvName(name)
    ensures ReadSettings(p, EnvLines(env, order)).env == p.env + map name | name in order :: env[name]
    ensures ReadSettings(p, EnvLines(env, order)) == p.(env := ReadSettings(p, EnvLines(env, order)).env)
    decreases |order|
  {
    hide ReadSetting, ExportLine, ValidEnvName;
    if order != [] {
      var name := order[0];
      assert name in order;
      ExportIsRead(p, name, env[name]);
      var lines := EnvLines(env, order);
      assert lines[0] == ExportLine(name, env[name]) && lines[1..] == EnvLines(env, order[1..]);
      EnvIsRead(p.(env := p.env[name := env[name]]), env, order[1..]);
    }
  }

  lemma OneSetting(p: Parsed, key: string, value: string)
    requires PlainKey(key)
    ensures ReadSettings(p, [SettingLine(key, value)]) == Setting(p, key, value)
  {
    hide ReadSetting, Setting;
    SettingIsRead(p, key, value);
    assert [SettingLine(key, value)][1..] == [];
  }

  lemma HeadIsRead(spec: Spec, paths: Paths)
    ensures ReadSettings(NOTHING, HeadLines(spec, paths)) == ReadBack(spec, paths).(hook := None, env := map[])
  {
    hide SettingLine, ReadSettings, Join;
    var ca, cleanup := SettingLine("CA", Authority(spec.staging)), SettingLine("AUTO_CLEANUP", "yes");
    var domains, challenge :=
      SettingLine("DOMAINS_TXT", DomainsPath(spec, paths)), SettingLine("CHALLENGETYPE", ChallengeType(spec.verb));
    var p1 := NOTHING.(ca := Some(Authority(spec.staging)));
    var p2 := p1.(domainsPath := Some(DomainsPath(spec, paths)));
    OneSetting(NOTHING, "CA", Authority(spec.staging));
    OneSetting(p1, "AUTO_CLEANUP", "yes");
    assert DomainsPath(spec, paths) != "" by {
      PathIsNonEmpty(spec, paths);
    }
    OneSetting(p1, "DOMAINS_TXT", DomainsPath(spec, paths));
    OneSetting(p2, "CHALLENGETYPE", ChallengeType(spec.verb));
    ReadSettingsAppend(NOTHING, [ca], [cleanup]);
    ReadSettingsAppend(NOTHING, [ca] + [cleanup], [domains]);
    ReadSettingsAppend(NOTHING, [ca] + [cleanup] + [domains], [challenge]);
    assert HeadLines(spec, paths) == [ca] + [cleanup] + [domains] + [challenge];
  }

  lemma PathIsNonEmpty(spec: Spec, paths: Paths)
    ensures DomainsPath(spec, paths) != ""
  {
  }

  lemma TailIsRead(p: Parsed, spec: Spec, paths: Paths)
    requires Writable(spec, paths) && p.hook == None
    ensures ReadSettings(p, WellKnownLines(spec, paths)) == p
    ensures ReadSettings(p, HookLines(HookOf(spec, paths))) == p.(hook := HookOf(spec, paths))
  {
    hide SettingLine, Join, HookOf, OneLine, ValidName, ValidEnvName;
    OneSetting(p, "WELLKNOWN", Join(paths.certs, "acme-challenge"));
    var hook := HookOf(spec, paths);
    if hook.Some? {
      OneSetting(p, "HOOK", hook.value);
    }
  }

  /** Reading a written configuration recovers the authority, the challenge, the domains path,
      the hook and the whole environment, whatever order the latter was written in. */
  lemma ConfigRoundTrip(spec: Spec, paths: Paths, order: seq<string>)
    requires Writable(spec, paths) && Lists(order, spec.hookEnv.Keys) && '\n' !in paths.certs
    ensures ReadSettings(NOTHING, Lines(Joined(ConfigLines(spec, paths, order)))) == ReadBack(spec, paths)
  {
    hide ReadSettings, HeadLines, WellKnownLines, HookLines, EnvLines, HookOf, DomainsPath, ValidName, ValidEnvName,
         OneLine;
    var head, wellKnown, hook, env :=
      HeadLines(spec, paths), WellKnownLines(spec, paths), HookLines(HookOf(spec, paths)),
      EnvLines(spec.hookEnv, order);
    ConfigLinesAreLines(spec, paths, order);
    ReadSettingsAppend(NOTHING, head + wellKnown + hook, env);
    ReadSettingsAppend(NOTHING, head + wellKnown, hook);
    ReadSettingsAppend(NOTHING, head, wellKnown);
    HeadIsRead(spec, paths);
    var p := ReadBack(spec, paths).(hook := None, env := map[]);
    TailIsRead(p, spec, paths);
    EnvIsRead(p.(hook := HookOf(spec, paths)), spec.hookEnv, order);
    assert (map name | name in order :: spec.hookEnv[name]) == spec.hookEnv;
    assert map[] + spec.hookEnv == spec.hookEnv;
  }

  /** Each written line is one line, ended by a quote. */
  predicate Whole(line: string) {
    line != "" && line[|line| - 1] == QUOTE && '\n' !in line
  }

  lemma WholeLines(lines: seq<string>)
    requires forall line | line in lines :: Whole(line)
    ensures Lines(Joined(lines)) == lines
  {
    LinesOfJoined(lines);
    forall i | 0 <= i < |lines| ensures WithoutCr(lines[i]) == lines[i] {
      assert lines[i] in lines;
    }
  }

  lemma {:induction false} QuoteKeepsLine(v: string)
    requires '\n' !in v
    ensures '\n' !in Escaped(v)
  {
    if v != "" {
      assert v[0] in v && forall c | c in v[1..] :: c in v;
      QuoteKeepsLine(v[1..]);
    }
  }

  lemma SettingIsWhole(key: string, value: string)
    requires '\n' !in key && '\n' !in value
    ensures Whole(SettingLine(key, value))
  {
    QuoteKeepsLine(value);
  }

  lemma ConfigLinesAreLines(spec: Spec, paths: Paths, order: seq<string>)
    requires Writable(spec, paths) && Lists(order, spec.hookEnv.Keys) && '\n' !in paths.certs
    ensures Lines(Joined(ConfigLines(spec, paths, order))) == ConfigLines(spec, paths, order)
  {
    hide Whole, EnvLines, HeadLines, WellKnownLines, HookLines, ValidEnvName, ValidName, HookOf, Joined, Lines;
    HeadIsWhole(spec, paths);
    HookIsWhole(HookOf(spec, paths));
    EnvIsWhole(spec.hookEnv, order);
    WholeLines(ConfigLines(spec, paths, order));
  }

  lemma HeadIsWhole(spec: Spec, paths: Paths)
    requires '\n' !in paths.certs && ValidName(spec.name)
    ensures forall line | line in HeadLines(spec, paths) + WellKnownLines(spec, paths) :: Whole(line)
  {
    hide Whole, SettingLine;
    NameIsOneLine(spec, paths);
    SettingIsWhole("CA", Authority(spec.staging));
    SettingIsWhole("AUTO_CLEANUP", "yes");
    SettingIsWhole("DOMAINS_TXT", DomainsPath(spec, paths));
    SettingIsWhole("CHALLENGETYPE", ChallengeType(spec.verb));
    SettingIsWhole("WELLKNOWN", Join(paths.certs, "acme-challenge"));
  }

  lemma NameIsOneLine(spec: Spec, paths: Paths)
    requires '\n' !in paths.certs && ValidName(spec.name)
    ensures '\n' !in DomainsPath(spec, paths) && '\n' !in Join(paths.certs, "acme-challenge")
  {
  }

  lemma HookIsWhole(hook: Option<string>)
    requires hook.Some? ==> OneLine(hook.value)
    ensures forall line | line in HookLines(hook) :: Whole(line)
  {
    hide Whole, SettingLine;
    if hook.Some? {
      SettingIsWhole("HOOK", hook.value);
    }
  }

  lemma {:induction false} EnvIsWhole(env: map<string, string>, order: seq<string>)
    requires forall name | name in order :: name in env && ValidEnvName(name) && OneLine(env[name])
    ensures forall line | line in EnvLines(env, order) :: Whole(line)
  {
    if order != [] {
      var name := order[0];
      assert name in order;
      EnvNameIsPlain(name);
      ExportIsWhole(name, env[name]);
      hide Whole, ExportLine;
      EnvIsWhole(env, order[1..]);
    }
  }

  lemma ExportIsWhole(name: string, value: string)
    requires IsWord(name) && '\n' !in value
    ensures Whole(ExportLine(name, value))
  {
    assert IsSpace('\n');
    SettingIsWhole(name, value);
    var line := SettingLine(name, value);
    assert ExportLine(name, value)[|line| + 6] == line[|line| - 1];
  }

  // ---------- The domain file ----------

  /** The domains a line names: none on a blank or comment line, else the words before `>`. */
  function DomainsIn(raw: string): seq<string> {
    var line := Trim(raw);
    if line == "" || line[0] == '#' then [] else
      match SplitOnce(line, '>')
      case None => Words(line)
      case Some((list, _)) => Words(Trim(list))
  }

  function AllDomains(lines: seq<string>): seq<string> {
    if lines == [] then [] else AllDomains(lines[..|lines| - 1]) + DomainsIn(lines[|lines| - 1])
  }

  /** The first occurrences, in order. */
  function Deduplicated(domains: seq<string>): seq<string> {
    if domains == [] then [] else
      var front, last := Deduplicated(domains[..|domains| - 1]), domains[|domains| - 1];
      if last in front then front else front + [last]
  }

  /** Dropping repetitions keeps every domain, once, and changes nothing where there are none. */
  lemma {:induction false} DeduplicatedKeepsAll(domains: seq<string>)
    ensures forall d :: d in Deduplicated(domains) <==> d in domains
    ensures forall i, j | 0 <= i < j < |Deduplicated(domains)| :: Deduplicated(domains)[i] != Deduplicated(domains)[j]
    ensures (forall i, j | 0 <= i < j < |domains| :: domains[i] != domains[j]) ==> Deduplicated(domains) == domains
  {
    if domains != [] {
      var front, last := domains[..|domains| - 1], domains[|domains| - 1];
      DeduplicatedKeepsAll(front);
      assert domains == front + [last];
    }
  }

  method ParseDomains(contents: string) returns (r: Result<seq<string>, ()>)
    ensures
      var all := AllDomains(Lines(contents));
      r == if all == [] || exists d | d in all :: !ValidDomain(d) then Failure(()) else Success(Deduplicated(all))
  {
    hide DomainsIn, ValidDomain, AllDomains, Deduplicated, Lines;
    var lines := Lines(contents);
    var domains: seq<string> := [];
    NoDomains();
    var i := 0;
    while i < |lines|
      invariant 0 <= i <= |lines|
      invariant domains == Deduplicated(AllDomains(lines[..i]))
      invariant forall d | d in AllDomains(lines[..i]) :: ValidDomain(d)
    {
      NextLine(lines, i);
      var more := AddDomains(domains, DomainsIn(lines[i]), AllDomains(lines[..i]));
      if more.Failure? {
        AllDomainsGrow(lines, i + 1);
        return Failure(());
      }
      domains := more.value;
      i := i + 1;
    }
    assert lines[..i] == lines;
    DeduplicatedKeepsAll(AllDomains(lines));
    assert AllDomains(lines) == [] || AllDomains(lines)[0] in domains;
    return if domains == [] then Failure(()) else Success(domains);
  }

  /** One line's domains after those of the lines before. */
  method AddDomains(domains: seq<string>, words: seq<string>, ghost before: seq<string>)
    returns (r: Result<seq<string>, ()>)
    requires domains == Deduplicated(before)
    ensures r == if exists d | d in words :: !ValidDomain(d) then Failure(()) else Success(Deduplicated(before + words))
  {
    hide ValidDomain, Deduplicated;
    var all := domains;
    var j := 0;
    assert before + words[..0] == before;
    while j < |words|
      invariant 0 <= j <= |words|
      invariant all == Deduplicated(before + words[..j]) && forall d | d in words[..j] :: ValidDomain(d)
    {
      if !ValidDomain(words[j]) {
        return Failure(());
      }
      OneMoreDomain(before + words[..j], words[j]);
      assert before + words[..j + 1] == before + words[..j] + [words[j]];
      if words[j] !in all {
        all := all + [words[j]];
      }
      j := j + 1;
    }
    assert words[..j] == words;
    return Success(all);
  }

  lemma NoDomains()
    ensures AllDomains([]) == [] && Deduplicated([]) == []
  {
  }

  lemma NextLine(lines: seq<string>, i: nat)
    requires i < |lines|
    ensures AllDomains(lines[..i + 1]) == AllDomains(lines[..i]) + DomainsIn(lines[i])
  {
    hide DomainsIn;
    assert lines[..i + 1][..i] == lines[..i];
  }

  lemma OneMoreDomain(domains: seq<string>, d: string)
    ensures Deduplicated(domains + [d])
         == if d in Deduplicated(domains) then Deduplicated(domains) else Deduplicated(domains) + [d]
  {
    assert (domains + [d])[..|domains|] == domains;
  }

  lemma {:induction false} AllDomainsGrow(lines: seq<string>, i: nat)
    requires i <= |lines|
    ensures forall d | d in AllDomains(lines[..i]) :: d in AllDomains(lines)
    decreases |lines| - i
  {
    hide AllDomains, DomainsIn;
    if i == |lines| {
      assert lines[..i] == lines;
    } else {
      NextLine(lines, i);
      AllDomainsGrow(lines, i + 1);
    }
  }

  function JoinedWords(words: seq<string>): string {
    if words == [] then "" else if |words| == 1 then words[0] else words[0] + " " + JoinedWords(words[1..])
  }

  function DomainLines(name: string, domains: seq<string>): seq<string>
    requires domains != []
  {
    var marker := Hostname(domains[0]);
    ["", "# " + marker + "-start", JoinedWords(domains) + " > " + name, "# " + marker + "-end"]
  }

  method RenderDomains(spec: Spec) returns (text: Option<string>)
    ensures text == if ValidName(spec.name) && spec.domains != [] && forall d | d in spec.domains :: ValidDomain(d)
                    then Some(Joined(DomainLines(spec.name, spec.domains))) else None
  {
    hide ValidName, ValidDomain, Joined;
    if !ValidName(spec.name) || spec.domains == [] {
      return None;
    }
    var i := 0;
    while i < |spec.domains|
      invariant 0 <= i <= |spec.domains| && forall d | d in spec.domains[..i] :: ValidDomain(d)
    {
      if !ValidDomain(spec.domains[i]) {
        return None;
      }
      i := i + 1;
    }
    assert spec.domains[..i] == spec.domains;
    return Some(Joined(DomainLines(spec.name, spec.domains)));
  }

  /** The words of joined words. */
  lemma {:induction false} WordsOfJoined(words: seq<string>)
    requires forall w | w in words :: IsWord(w)
    ensures Words(JoinedWords(words)) == words
  {
    if words != [] {
      var w := words[0];
      assert w in words;
      if |words| == 1 {
        WordsOfWord(w, "");
        assert w + "" == w;
        assert words == [w];
      } else {
        var rest := JoinedWords(words[1..]);
        WordsOfWord(w, " " + rest);
        assert w + (" " + rest) == JoinedWords(words);
        assert (" " + rest)[1..] == rest;
        WordsOfJoined(words[1..]);
      }
    }
  }

  /** Joined words begin and end with words, and contain what the words contain. */
  lemma {:induction false} JoinedIsTrimmed(words: seq<string>)
    requires words != [] && forall w | w in words :: IsWord(w)
    ensures JoinedWords(words) != "" && IsTrimmed(JoinedWords(words))
    ensures JoinedWords(words)[0] == words[0][0]
    ensures forall c | c in JoinedWords(words) :: c == ' ' || exists w | w in words :: c in w
  {
    assert words[0] in words;
    assert words[0][0] in words[0] && words[0][|words[0]| - 1] in words[0];
    if |words| > 1 {
      JoinedIsTrimmed(words[1..]);
    }
  }

  lemma DomainIsWord(d: string)
    requires ValidDomain(d)
    ensures IsWord(d) && '>' !in d && '\n' !in d && d[0] != '#'
    ensures '\n' !in Hostname(d)
  {
    var host := Hostname(d);
    assert d == if HasPrefix(d, "*.") then "*." + host else host;
    assert IsSpace('\n') && host[0] in host && (d[0] == '*' || d[0] == host[0]);
  }

  /** The line of domains reads as the domains. */
  lemma DomainLineIsRead(name: string, domains: seq<string>)
    requires ValidName(name) && domains != [] && forall d | d in domains :: ValidDomain(d)
    ensures DomainsIn(JoinedWords(domains) + " > " + name) == domains
  {
    ListIsPlain(domains);
    NameEndsInText(name);
    hide ValidDomain, JoinedWords, Words, ValidName, DomainsIn, IsTrimmed;
    ListLineIsRead(JoinedWords(domains), name);
  }

  lemma ListLineIsRead(list: string, name: string)
    requires list != "" && IsTrimmed(list) && '>' !in list && list[0] != '#'
    requires name != "" && !IsSpace(name[|name| - 1])
    ensures DomainsIn(list + " > " + name) == Words(list)
  {
    hide Words, Trim, SplitOnce;
    var line := list + " > " + name;
    assert line[|line| - 1] == name[|name| - 1] && line[0] == list[0];
    TrimTrimmed(line);
    SplitAtFirst(list + " ", '>', " " + name);
    assert line == list + " " + ['>'] + (" " + name);
    TrimPaddedRight(list, " ");
  }

  /** A line of domains without the certificate's name reads as the domains too. */
  lemma BareDomainLineIsRead(domains: seq<string>)
    requires domains != [] && forall d | d in domains :: ValidDomain(d)
    ensures DomainsIn(JoinedWords(domains)) == domains
  {
    hide ValidDomain, JoinedWords, Words, Trim;
    ListIsPlain(domains);
    TrimTrimmed(JoinedWords(domains));
  }

  lemma NameEndsInText(name: string)
    requires ValidName(name)
    ensures !IsSpace(name[|name| - 1])
  {
    assert name[|name| - 1] in name;
  }

  lemma ListIsPlain(domains: seq<string>)
    requires domains != [] && forall d | d in domains :: ValidDomain(d)
    ensures var list := JoinedWords(domains);
      && list != "" && IsTrimmed(list) && '>' !in list && '\n' !in list && list[0] != '#' && Words(list) == domains
  {
    hide ValidDomain, JoinedWords, Words;
    forall d | d in domains ensures IsWord(d) && '>' !in d && d[0] != '#' && '\n' !in d {
      DomainIsWord(d);
    }
    assert domains[0] in domains;
    JoinedIsTrimmed(domains);
    WordsOfJoined(domains);
  }

  lemma MarkerIsComment(marker: string, end: string)
    ensures DomainsIn("# " + marker + end) == []
  {
    hide Trim;
    TrimKeepsFirst("# " + marker + end);
  }

  /** Reading a written domain file gives the domains in order, each once. */
  lemma DomainsRoundTrip(name: string, domains: seq<string>)
    requires ValidName(name) && domains != [] && forall d | d in domains :: ValidDomain(d)
    ensures AllDomains(Lines(Joined(DomainLines(name, domains)))) == domains
  {
    hide ValidDomain, ValidName, JoinedWords, DomainsIn, Joined, Lines, Hostname, AllDomains;
    var lines := DomainLines(name, domains);
    var marker := Hostname(domains[0]);
    DomainLinesAreLines(name, domains);
    DomainLineIsRead(name, domains);
    MarkerIsComment(marker, "-start");
    MarkerIsComment(marker, "-end");
    BlankNamesNothing();
    FourLines(lines);
  }

  lemma BlankNamesNothing()
    ensures DomainsIn("") == []
  {
  }

  lemma FourLines(lines: seq<string>)
    requires |lines| == 4
    ensures AllDomains(lines)
         == DomainsIn(lines[0]) + DomainsIn(lines[1]) + DomainsIn(lines[2]) + DomainsIn(lines[3])
  {
    hide DomainsIn;
    assert lines[..3][..2] == lines[..2] && lines[..2][..1] == lines[..1] && lines[..1][..0] == [];
    assert AllDomains(lines[..1]) == DomainsIn(lines[0]);
    assert AllDomains(lines[..2]) == DomainsIn(lines[0]) + DomainsIn(lines[1]);
    assert AllDomains(lines[..3]) == DomainsIn(lines[0]) + DomainsIn(lines[1]) + DomainsIn(lines[2]);
  }

  lemma DomainLinesAreLines(name: string, domains: seq<string>)
    requires ValidName(name) && domains != [] && forall d | d in domains :: ValidDomain(d)
    ensures Lines(Joined(DomainLines(name, domains))) == DomainLines(name, domains)
  {
    hide ValidDomain, JoinedWords, Hostname, Words, Lines, Joined;
    ListIsPlain(domains);
    assert domains[0] in domains;
    DomainIsWord(domains[0]);
    NameEndsInText(name);
    var lines := DomainLines(name, domains);
    NameIsLine(name);
    LinesOfJoined(lines);
    assert lines[2][|lines[2]| - 1] == name[|name| - 1];
    assert WithoutCr(lines[0]) == lines[0] && WithoutCr(lines[1]) == lines[1];
    assert WithoutCr(lines[2]) == lines[2] && WithoutCr(lines[3]) == lines[3];
  }

  lemma NameIsLine(name: string)
    requires ValidName(name)
    ensures '\n' !in name
  {
  }

  /** Comments and blank lines say nothing in either file. */
  lemma CommentsSayNothing(p: Parsed, blank: string, comment: string)
    requires IsBlank(blank)
    ensures ReadSetting(p, blank + "#" + comment) == p && ReadSetting(p, blank) == p
    ensures DomainsIn(blank + "#" + comment) == [] && DomainsIn(blank) == []
  {
    hide SplitOnce, Setting, ShellValue, Words;
    TrimPaddedLeft(blank, "");
    assert blank + "" == blank;
    HashIsFirst(blank, comment);
  }

  // ---------- A certificate, saved and loaded ----------

  /** A missing domain file is looked for where the configuration says it is. */
  method Load(config: string, files: map<string, string>, name: string, paths: Paths)
    returns (r: Result<Spec, ()>)
    ensures r == Loaded(ReadSettings(NOTHING, Lines(config)), files, name, Join(paths.certs, name + ".txt"))
  {
    hide ReadSettings, AllDomains, Deduplicated, ValidDomain, Join;
    var parsed := ParseConfig(config);
    var verb;
    if parsed.challenge == Some("http-01") {
      verb := Http;
    } else if parsed.challenge == Some("dns-01") {
      verb := Dns;
    } else {
      return Failure(());
    }
    var path := Join(paths.certs, name + ".txt");
    if path !in files {
      if parsed.domainsPath.None? || parsed.domainsPath.value == path || parsed.domainsPath.value !in files {
        return Failure(());
      }
      path := parsed.domainsPath.value;
    }
    var domains := ParseDomains(files[path]);
    if domains.Failure? {
      return Failure(());
    }
    r := Success(Spec(name, domains.value, verb, parsed.hook, parsed.env, parsed.ca == Some("letsencrypt-test")));
  }

  function Loaded(parsed: Parsed, files: map<string, string>, name: string, path: string): Result<Spec, ()> {
    var verb :=
      if parsed.challenge == Some("http-01") then Some(Http)
      else if parsed.challenge == Some("dns-01") then Some(Dns) else None;
    var text :=
      if path in files then Some(files[path])
      else if parsed.domainsPath.Some? && parsed.domainsPath.value != path && parsed.domainsPath.value in files then
        Some(files[parsed.domainsPath.value])
      else None;
    if verb.None? || text.None? then Failure(()) else
      var all := AllDomains(Lines(text.value));
      if all == [] || exists d | d in all :: !ValidDomain(d) then Failure(())
      else Success(Spec(name, Deduplicated(all), verb.value, parsed.hook, parsed.env,
        parsed.ca == Some("letsencrypt-test")))
  }

  /** A certificate written to its two files loads as it was, but for repeated domains and, for
      DNS without a hook, the default hook made explicit. */
  lemma SavedIsLoaded(spec: Spec, paths: Paths, order: seq<string>, files: map<string, string>)
    requires Writable(spec, paths) && Lists(order, spec.hookEnv.Keys) && '\n' !in paths.certs
    requires spec.domains != [] && forall d | d in spec.domains :: ValidDomain(d)
    requires DomainsPath(spec, paths) in files
    requires files[DomainsPath(spec, paths)] == Joined(DomainLines(spec.name, spec.domains))
    ensures Loaded(ReadSettings(NOTHING, Lines(Joined(ConfigLines(spec, paths, order)))), files, spec.name,
                   DomainsPath(spec, paths))
         == Success(spec.(domains := Deduplicated(spec.domains), hook := HookOf(spec, paths)))
  {
    hide ReadSettings, ConfigLines, Lines, Joined, DomainLines, ValidName, ValidEnvName, ValidDomain, Deduplicated,
         AllDomains, Join;
    ConfigRoundTrip(spec, paths, order);
    DomainsRoundTrip(spec.name, spec.domains);
    AuthorityTells(spec.staging);
  }

  /** With its domain file missing, a certificate loads as if the file were there with the text of
      the one its configuration names, and not at all when that is missing too. */
  lemma MissingDomainsAreLookedUp(parsed: Parsed, files: map<string, string>, name: string, path: string)
    requires path !in files
    ensures
      var elsewhere := parsed.domainsPath;
      Loaded(parsed, files, name, path)
      == if elsewhere.Some? && elsewhere.value in files
         then Loaded(parsed, files[path := files[elsewhere.value]], name, path) else Failure(())
  {
    hide AllDomains, Lines, ValidDomain, Deduplicated;
  }

  lemma AuthorityTells(staging: bool)
    ensures Authority(staging) == "letsencrypt-test" <==> staging
    ensures ChallengeType(Http) == "http-01" && ChallengeType(Dns) == "dns-01" && "http-01" != "dns-01"
  {
  }
}
