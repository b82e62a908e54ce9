/** The agent's configuration file, read and written
    (agent/infrapulse_agent.py:67-120). The file is its `[agent]` section: a map
    from keys to single-line values, which the parser trims when it reads them. */
module AgentConfig {
  import opened Prelude
  import opened Text
  import Decimals

  type Section = map<string, string>

  const DEFAULT_LOG_PATHS: seq<string> := ["/var/log/syslog", "/var/log/auth.log", "/var/log/kern.log"]

  /** The fields of the agent's configuration, as a value. */
  datatype Config = Config(
    serverUrl: string, agentToken: string, registrationToken: string,
    interval: int, logInterval: int, heartbeatInterval: int, logPaths: seq<string>,
    logBatchSize: int, hostnameOverride: string, environment: string, tags: seq<string>)

  const DEFAULTS := Config("", "", "", 30, 60, 60, DEFAULT_LOG_PATHS, 100, "", "production", [])

  /** What loading a file comes to; an integer that does not parse raises. */
  datatype Outcome = NoFile | Loaded | Raised

  // ---- Integers ------------------------------------------------------------------

  function Str(n: int): string
  {
    if n < 0 then "-" + Decimals.Print(-n) else Decimals.Print(n)
  }

  /** The digits of an integer literal: underscores may stand between two digits. */
  predicate IsLiteral(s: string)
  {
    && s != [] && Decimals.IsDigit(s[0]) && Decimals.IsDigit(s[|s| - 1])
    && (forall i :: 0 <= i < |s| ==> Decimals.IsDigit(s[i]) || s[i] == '_')
    && (forall i :: 0 < i < |s| ==> s[i] == '_' ==> s[i - 1] != '_')
  }

  function Digits(s: string): (r: string)
    requires forall i :: 0 <= i < |s| ==> Decimals.IsDigit(s[i]) || s[i] == '_'
    ensures forall i :: 0 <= i < |r| ==> Decimals.IsDigit(r[i])
  {
    if s == [] then [] else (if s[0] == '_' then [] else [s[0]]) + Digits(s[1..])
  }

  /** int(text), or None where it raises. */
  function Int(text: string): Option<int>
  {
    var s := Strip(text);
    var negative := s != [] && s[0] == '-';
    var body := if s != [] && (s[0] == '-' || s[0] == '+') then s[1..] else s;
    if !IsLiteral(body) then None
    else
      var n: int := Decimals.Value(Digits(body));
      Some(if negative then -n else n)
  }

  lemma {:induction false} DigitsOfDigits(s: string)
    requires forall i :: 0 <= i < |s| ==> Decimals.IsDigit(s[i])
    ensures Digits(s) == s
  {
    if s != [] { DigitsOfDigits(s[1..]); }
  }

  lemma DigitsAreTrimmed(d: string)
    requires d != [] && forall i :: 0 <= i < |d| ==> Decimals.IsDigit(d[i])
    ensures IsLiteral(d) && Trimmed(d) && Trimmed("-" + d)
  {
    assert ("-" + d)[|d|] == d[|d| - 1];
  }

  lemma IntOfDigits(d: string)
    requires d != [] && forall i :: 0 <= i < |d| ==> Decimals.IsDigit(d[i])
    ensures Int(d) == Some(Decimals.Value(d)) && Int("-" + d) == Some(0 - Decimals.Value(d))
  {
    hide Strip, Digits, IsLiteral, Trimmed, Decimals.Value;
    DigitsAreTrimmed(d);
    DigitsOfDigits(d);
    assert Strip(d) == d && Strip("-" + d) == "-" + d;
    assert ("-" + d)[1..] == d;
  }

  /** Reading an integer undoes printing it, and the parser's trimming does not
      matter. */
  lemma IntOfStr(n: int)
    ensures Strip(Str(n)) == Str(n) && Int(Str(n)) == Some(n)
  {
    hide Strip, Int, Trimmed, IsLiteral, Decimals.Value;
    var k: nat := if n < 0 then -n else n;
    Decimals.ValueOfPrint(k);
    IntOfDigits(Decimals.Print(k));
    DigitsAreTrimmed(Decimals.Print(k));
  }

  // ---- Reading and writing ----------------------------------------------------------

  /** str.rstrip("/") */
  function StripSlashes(s: string): (r: string)
    ensures r <= s && (r == [] || r[|r| - 1] != '/')
    ensures s == [] || s[|s| - 1] != '/' ==> r == s
  {
    if s != [] && s[|s| - 1] == '/' then StripSlashes(s[..|s| - 1]) else s
  }

  function Get(sec: Section, key: string, default: string): string
  {
    if key in sec then Strip(sec[key]) else default
  }

  function GetInt(sec: Section, key: string, default: int): Option<int>
  {
    if key in sec then Int(Strip(sec[key])) else Some(default)
  }

  /** The configuration after loading the section, and whether it got to the end. An
      integer that does not parse leaves what was assigned before it. */
  function Load(c: Config, sec: Section): (Config, Outcome)
  {
    var c1 := c.(serverUrl := StripSlashes(Get(sec, "server_url", c.serverUrl)),
                 agentToken := Get(sec, "agent_token", c.agentToken),
                 registrationToken := Get(sec, "registration_token", c.registrationToken));
    match GetInt(sec, "interval", c.interval)
    case None => (c1, Raised)
    case Some(n) =>
      var c2 := c1.(interval := n);
      match GetInt(sec, "log_interval", c.logInterval)
      case None => (c2, Raised)
      case Some(k) =>
        var tags := Get(sec, "tags", "");
        (c2.(logInterval := k,
             logPaths := Items(Get(sec, "log_paths", Join(c.logPaths))),
             environment := Get(sec, "environment", c.environment),
             hostnameOverride := Get(sec, "hostname_override", c.hostnameOverride),
             tags := if tags == "" then c.tags else Items(tags)), Loaded)
  }

  function Saved(c: Config): Section
  {
    map["server_url" := c.serverUrl, "agent_token" := c.agentToken,
        "interval" := Str(c.interval), "log_interval" := Str(c.logInterval),
        "log_paths" := Join(c.logPaths), "environment" := c.environment,
        "hostname_override" := c.hostnameOverride, "tags" := Join(c.tags)]
  }

  /** The object the agent carries around. */
  class AgentConfig {
    var serverUrl: string
    var agentToken: string
    var registrationToken: string
    var interval: int
    var logInterval: int
    var heartbeatInterval: int
    var logPaths: seq<string>
    var logBatchSize: int
    var hostnameOverride: string
    var environment: string
    var tags: seq<string>

    function Fields(): Config
      reads this
    {
      Config(serverUrl, agentToken, registrationToken, interval, logInterval, heartbeatInterval,
             logPaths, logBatchSize, hostnameOverride, environment, tags)
    }

    constructor ()
      ensures Fields() == DEFAULTS
    {
      serverUrl, agentToken, registrationToken := "", "", "";
      interval, logInterval, heartbeatInterval := 30, 60, 60;
      logPaths, logBatchSize := DEFAULT_LOG_PATHS, 100;
      hostnameOverride, environment, tags := "", "production", [];
    }

    /** `file` is None when the path does not exist. */
    method LoadFile(file: Option<Section>) returns (outcome: Outcome)
      modifies this
      ensures (Fields(), outcome) == if file.None? then (old(Fields()), NoFile) else Load(old(Fields()), file.value)
    {
      hide Get, GetInt, StripSlashes, Items, Join, Strip, Int;
      if file.None? { return NoFile; }
      var sec := file.value;
      serverUrl := StripSlashes(Get(sec, "server_url", serverUrl));
      agentToken := Get(sec, "agent_token", agentToken);
      registrationToken := Get(sec, "registration_token", registrationToken);
      var n := GetInt(sec, "interval", interval);
      if n.None? { return Raised; }
      interval := n.value;
      n := GetInt(sec, "log_interval", logInterval);
      if n.None? { return Raised; }
      logInterval := n.value;
      logPaths := Items(Get(sec, "log_paths", Join(logPaths)));
      environment := Get(sec, "environment", environment);
      hostnameOverride := Get(sec, "hostname_override", hostnameOverride);
      var tagsStr := Get(sec, "tags", "");
      if tagsStr != "" { tags := Items(tagsStr); }
      return Loaded;
    }

    method Save() returns (file: Section)
      ensures file == Saved(Fields())
    {
      file := map["server_url" := serverUrl, "agent_token" := agentToken,
                  "interval" := Str(interval), "log_interval" := Str(logInterval),
                  "log_paths" := Join(logPaths), "environment" := environment,
                  "hostname_override" := hostnameOverride, "tags" := Join(tags)];
    }
  }

  // ---- Round trip ----------------------------------------------------------------------

  /** The eight saved fields of two configurations agree. */
  predicate SameSaved(c: Config, d: Config)
  {
    && c.serverUrl == d.serverUrl && c.agentToken == d.agentToken
    && c.interval == d.interval && c.logInterval == d.logInterval && c.logPaths == d.logPaths
    && c.environment == d.environment && c.hostnameOverride == d.hostnameOverride
    && c.tags == d.tags
  }

  predicate UrlSurvives(url: string)
  {
    Trimmed(url) && (url == [] || url[|url| - 1] != '/')
  }

  /** What a configuration must look like for its file to bring it back. */
  predicate Savable(c: Config) { UrlSurvives(c.serverUrl) && ListsAndNamesSurvive(c) }

  predicate ListsAndNamesSurvive(c: Config)
  {
    && Trimmed(c.agentToken) && Trimmed(c.environment) && Trimmed(c.hostnameOverride)
    && (forall x | x in c.logPaths :: IsItem(x)) && (forall x | x in c.tags :: IsItem(x))
  }

  lemma UrlIff(url: string)
    ensures StripSlashes(Strip(url)) == url <==> UrlSurvives(url)
  {
    var s := Strip(url);
    StripKeeps(url, '/');
    if StripSlashes(s) == url { assert |s| == |url| && s == url; }
  }

  lemma TagsIff(tags: seq<string>)
    ensures var s := Strip(Join(tags));
            (if s == "" then [] else Items(s)) == tags <==> forall x | x in tags :: IsItem(x)
  {
    ItemsOfJoinIff(tags);
    if Strip(Join(tags)) == "" { EmptyItems(); }
  }

  lemma RoundTripFields(c: Config)
    ensures var (d, outcome) := Load(DEFAULTS, Saved(c));
            && outcome == Loaded && d.interval == c.interval && d.logInterval == c.logInterval
            && (d.serverUrl == c.serverUrl <==> UrlSurvives(c.serverUrl))
            && (d.agentToken == c.agentToken <==> Trimmed(c.agentToken))
            && (d.environment == c.environment <==> Trimmed(c.environment))
            && (d.hostnameOverride == c.hostnameOverride <==> Trimmed(c.hostnameOverride))
            && (d.logPaths == c.logPaths <==> forall x | x in c.logPaths :: IsItem(x))
            && (d.tags == c.tags <==> forall x | x in c.tags :: IsItem(x))
  {
    hide Strip, Str, Int, Items, Join, IsItem, Trimmed, StripSlashes, UrlSurvives;
    IntOfStr(c.interval);
    IntOfStr(c.logInterval);
    UrlIff(c.serverUrl);
    StripIff(c.agentToken);
    StripIff(c.environment);
    StripIff(c.hostnameOverride);
    ItemsOfJoinIff(c.logPaths);
    TagsIff(c.tags);
  }

  /** Saving any configuration and loading the file into a fresh one always succeeds,
      and recovers all eight saved fields exactly for the configurations described
      above. */
  lemma RoundTripIff(c: Config)
    ensures Load(DEFAULTS, Saved(c)).1 == Loaded
    ensures SameSaved(Load(DEFAULTS, Saved(c)).0, c) <==> Savable(c)
  {
    hide Load, Saved, IsItem, Trimmed, UrlSurvives;
    RoundTripFields(c);
  }

  lemma StripIff(s: string)
    ensures Strip(s) == s <==> Trimmed(s)
  {
  }

  lemma ItemsAreItems(s: string)
    ensures forall x | x in Items(s) :: IsItem(x)
  {
    hide Cleaned, Split, IsItem;
    SplitPieces(s);
    CleanedAreItems(Split(s));
  }

  lemma {:induction false} SlashesStripped(s: string)
    requires Trimmed(s)
    ensures StripSlashes(s) == [] || !IsSpace(StripSlashes(s)[0])
  {
  }

  // Where each field of a loaded configuration comes from.
  lemma LoadSources(sec: Section)
    ensures var c := Load(DEFAULTS, sec).0;
            && c.serverUrl == StripSlashes(Get(sec, "server_url", ""))
            && c.agentToken == Get(sec, "agent_token", "")
            && c.environment in ["production", Get(sec, "environment", "production")]
            && c.hostnameOverride in ["", Get(sec, "hostname_override", "")]
            && c.logPaths in [DEFAULT_LOG_PATHS, Items(Get(sec, "log_paths", Join(DEFAULT_LOG_PATHS)))]
            && c.tags in [[], Items(Get(sec, "tags", ""))]
  {
    hide Items, Int, Get, StripSlashes, Join;
  }

  lemma GetTrimmed(sec: Section, key: string, default: string)
    requires Trimmed(default)
    ensures Trimmed(Get(sec, key, default))
  {
  }

  lemma DefaultsSurvive()
    ensures forall x | x in DEFAULT_LOG_PATHS :: IsItem(x)
    ensures Trimmed("") && Trimmed("production")
  {
  }

  /** Every load into a fresh configuration, even one that raises half-way, leaves
      one that can be saved, except for the server address: taking its trailing
      slashes off may bare a space. */
  lemma LoadedSurvives(sec: Section)
    ensures var c := Load(DEFAULTS, sec).0;
            && ListsAndNamesSurvive(c)
            && (UrlSurvives(c.serverUrl) <==> c.serverUrl == "" || !IsSpace(c.serverUrl[|c.serverUrl| - 1]))
  {
    hide Load, Items, Int, Get, IsItem, IsSpace;
    LoadSources(sec);
    DefaultsSurvive();
    GetTrimmed(sec, "server_url", "");
    GetTrimmed(sec, "agent_token", "");
    GetTrimmed(sec, "environment", "production");
    GetTrimmed(sec, "hostname_override", "");
    SlashesStripped(Get(sec, "server_url", ""));
    ItemsAreItems(Get(sec, "log_paths", Join(DEFAULT_LOG_PATHS)));
    ItemsAreItems(Get(sec, "tags", ""));
  }

  /** Saving what was loaded and loading it again recovers seven of the eight saved
      fields, and the server address exactly when it does not end in whitespace. */
  lemma LoadedRoundTrip(sec: Section)
    ensures var c := Load(DEFAULTS, sec).0;
            var (d, outcome) := Load(DEFAULTS, Saved(c));
            && outcome == Loaded
            && SameSaved(d.(serverUrl := c.serverUrl), c)
            && (d.serverUrl == c.serverUrl
                <==> c.serverUrl == "" || !IsSpace(c.serverUrl[|c.serverUrl| - 1]))
  {
    hide Load, Saved, IsItem, Trimmed, IsSpace, UrlSurvives;
    LoadedSurvives(sec);
    RoundTripFields(Load(DEFAULTS, sec).0);
  }

  /** Such an address: one more trip through the file and it is another one. */
  lemma AddressLosesSpace()
    ensures var c := Load(DEFAULTS, map["server_url" := "a /"]).0;
            c.serverUrl == "a " && Load(DEFAULTS, Saved(c)).0.serverUrl == "a"
  {
    hide Load, Saved, Strip, StripSlashes;
    var sec: Section := map["server_url" := "a /"];
    LoadSources(sec);
    var c := Load(DEFAULTS, sec).0;
    LoadSources(Saved(c));
    StripExamples();
    assert Get(sec, "server_url", "") == "a /";
    assert Get(Saved(c), "server_url", "") == Strip(c.serverUrl) by { SavedUrl(c); }
  }

  lemma SavedUrl(c: Config)
    ensures Get(Saved(c), "server_url", "") == Strip(c.serverUrl)
  {
    hide Strip, Str, Join;
  }

  lemma StripExamples()
    ensures Strip("a /") == "a /" && StripSlashes("a /") == "a "
    ensures Strip("a ") == "a" && StripSlashes("a") == "a"
  {
    assert "a /"[..2] == "a ";
    assert "a "[..1] == "a";
    assert StripStart("a ") == "a ";
  }

  // ---- The keys of the file ----------------------------------------------------------------

  lemma {:induction false} SlashesAreStripped(s: string, slashes: string)
    requires (forall i :: 0 <= i < |slashes| ==> slashes[i] == '/') && (s != "" ==> s[|s| - 1] != '/')
    ensures StripSlashes(s + slashes) == s
  {
    if slashes == "" {
      assert s + slashes == s;
    } else {
      var last := |slashes| - 1;
      assert (s + slashes)[..|s| + last] == s + slashes[..last];
      SlashesAreStripped(s, slashes[..last]);
    }
  }

  lemma IntOfStripped(text: string, s: string)
    requires Strip(text) == Strip(s)
    ensures Int(text) == Int(s)
  {
    hide Strip, Digits, IsLiteral, Decimals.Value;
  }

  lemma IntOfPlus(d: string)
    requires d != "" && forall i :: 0 <= i < |d| ==> Decimals.IsDigit(d[i])
    ensures Int("+" + d) == Some(Decimals.Value(d))
  {
    hide Strip, Digits, IsLiteral, Trimmed, Decimals.Value;
    DigitsAreTrimmed(d);
    DigitsOfDigits(d);
    PlusIsTrimmed(d);
    assert ("+" + d)[1..] == d;
  }

  lemma PlusIsTrimmed(d: string)
    requires d != "" && Trimmed(d)
    ensures Strip("+" + d) == "+" + d
  {
    hide StripStart, StripEnd;
    assert ("+" + d)[|d|] == d[|d| - 1];
  }

  /** A number may stand between whitespace and carry a sign. */
  lemma IntOfSigned(a: string, sign: string, d: string, b: string)
    requires AllSpace(a) && AllSpace(b) && sign in {"", "+", "-"}
    requires d != "" && forall i :: 0 <= i < |d| ==> '0' <= d[i] <= '9'
    ensures Int(a + sign + d + b) == Some(if sign == "-" then 0 - Decimals.Value(d) else Decimals.Value(d))
  {
    hide *;
    var s := sign + d;
    SignedIsPlain(sign, d);
    NoSpaceAtAll();
    StripIs(a, s, b);
    StripIs("", s, "");
    assert a + sign + d + b == a + s + b && "" + s + "" == s;
    IntOfStripped(a + s + b, s);
    IntOfSign(sign, d);
  }

  lemma SignedIsPlain(sign: string, d: string)
    requires sign in {"", "+", "-"} && d != "" && forall i :: 0 <= i < |d| ==> '0' <= d[i] <= '9'
    ensures IsPlain(sign + d)
  {
    var s := sign + d;
    assert s[|s| - 1] == d[|d| - 1];
    NoDigitIsSpace(s[|s| - 1]);
    NoDigitIsSpace(s[0]);
  }

  lemma NoDigitIsSpace(c: char)
    requires '0' <= c <= '9' || c == '+' || c == '-'
    ensures c !in WHITESPACE
  {
  }

  lemma IntOfSign(sign: string, d: string)
    requires sign in {"", "+", "-"} && d != "" && forall i :: 0 <= i < |d| ==> '0' <= d[i] <= '9'
    ensures forall i :: 0 <= i < |d| ==> Decimals.IsDigit(d[i])
    ensures Int(sign + d) == Some(if sign == "-" then 0 - Decimals.Value(d) else Decimals.Value(d))
  {
    hide Int, Decimals.Value;
    IntOfDigits(d);
    IntOfPlus(d);
    assert "" + d == d;
  }

  lemma NoSpaceAtAll()
    ensures AllSpace("")
  {
  }

  // Digits, underscores, digits.
  lemma UnderscoreLiteral(a: string, u: string, b: string)
    requires a != "" && b != "" && (forall i :: 0 <= i < |a| ==> Decimals.IsDigit(a[i]))
    requires (forall i :: 0 <= i < |b| ==> Decimals.IsDigit(b[i])) && forall i :: 0 <= i < |u| ==> u[i] == '_'
    ensures IsLiteral(a + u + b) <==> |u| <= 1
  {
    var s := a + u + b;
    assert s[0] == a[0] && s[|s| - 1] == b[|b| - 1];
    if |u| > 1 {
      assert s[|a| + 1] == u[1] && s[|a| + 1 - 1] == u[0];
    } else {
      forall i | 0 <= i < |s| && i != |a| ensures s[i] != '_' {
        assert s[i] == if i < |a| then a[i] else b[i - |a + u|];
      }
    }
  }

  lemma {:induction false} DigitsDropUnderscore(a: string, u: string, b: string)
    requires (forall i :: 0 <= i < |a| ==> Decimals.IsDigit(a[i])) && (u == "" || u == "_")
    requires forall i :: 0 <= i < |b| ==> Decimals.IsDigit(b[i])
    ensures forall i :: 0 <= i < |a + u + b| ==> Decimals.IsDigit((a + u + b)[i]) || (a + u + b)[i] == '_'
    ensures Digits(a + u + b) == a + b
  {
    DigitsOfDigits(b);
    if a != "" {
      assert (a + u + b)[1..] == a[1..] + u + b;
      DigitsDropUnderscore(a[1..], u, b);
      assert a + b == [a[0]] + (a[1..] + b);
    } else if u == "" {
      assert a + u + b == b == a + b;
    } else {
      assert (a + u + b)[1..] == b && a + b == b;
    }
  }

  /** An underscore may stand between two digits, and two may not. */
  lemma IntOfUnderscoresIff(a: string, u: string, b: string)
    requires a != "" && b != "" && (forall i :: 0 <= i < |a| ==> '0' <= a[i] <= '9')
    requires (forall i :: 0 <= i < |b| ==> '0' <= b[i] <= '9') && forall i :: 0 <= i < |u| ==> u[i] == '_'
    ensures Int(a + u + b) == if |u| <= 1 then Some(Decimals.Value(a + b)) else None
  {
    var s := a + u + b;
    assert s[0] == a[0] && s[|s| - 1] == b[|b| - 1];
    assert Strip(s) == s by { StripIff(s); }
    UnderscoreLiteral(a, u, b);
    hide Strip, IsLiteral, Decimals.Value;
    if |u| <= 1 {
      assert u == "" || u == "_";
      DigitsDropUnderscore(a, u, b);
    }
  }

  /** What a fresh configuration becomes, key by key; it raises exactly when one of the two
      intervals is given and is no integer. */
  lemma LoadsKeys(sec: Section)
    ensures var (c, outcome) := Load(DEFAULTS, sec);
      && outcome == (if ("interval" in sec && Int(Strip(sec["interval"])).None?) ||
                        ("log_interval" in sec && Int(Strip(sec["log_interval"])).None?) then Raised else Loaded)
      && (outcome == Loaded ==>
            && c.serverUrl == (if "server_url" in sec then StripSlashes(Strip(sec["server_url"])) else "")
            && c.agentToken == (if "agent_token" in sec then Strip(sec["agent_token"]) else "")
            && c.registrationToken == (if "registration_token" in sec then Strip(sec["registration_token"]) else "")
            && Some(c.interval) == (if "interval" in sec then Int(Strip(sec["interval"])) else Some(30))
            && Some(c.logInterval) == (if "log_interval" in sec then Int(Strip(sec["log_interval"])) else Some(60))
            && c.environment == (if "environment" in sec then Strip(sec["environment"]) else "production")
            && c.hostnameOverride == (if "hostname_override" in sec then Strip(sec["hostname_override"]) else "")
            && c.tags == (if "tags" in sec then Items(Strip(sec["tags"])) else [])
            && c.logPaths == (if "log_paths" in sec then Items(Strip(sec["log_paths"]))
                              else ["/var/log/syslog", "/var/log/auth.log", "/var/log/kern.log"])
            && c.heartbeatInterval == 60 && c.logBatchSize == 100)
  {
    hide Strip, Items, Int, Join, StripSlashes, IsItem, Trimmed;
    DefaultsSurvive();
    ItemsOfJoinIff(DEFAULT_LOG_PATHS);
    JoinTrimmed(DEFAULT_LOG_PATHS);
    StripIff(Join(DEFAULT_LOG_PATHS));
    EmptyItems();
    NothingToStrip();
  }

  lemma NothingToStrip()
    ensures Strip("") == "" && StripSlashes("") == "" && Items("") == []
  {
    hide IsSpace;
    assert Split("") == [""] && Cleaned([""]) == [];
  }

  /** The saved file has these eight keys, and each names its own field. */
  lemma SavedKeys(c: Config)
    ensures Saved(c).Keys == {"server_url", "agent_token", "interval", "log_interval", "log_paths", "environment",
                              "hostname_override", "tags"}
    ensures Saved(c)["server_url"] == c.serverUrl && Saved(c)["agent_token"] == c.agentToken
    ensures Saved(c)["environment"] == c.environment && Saved(c)["hostname_override"] == c.hostnameOverride
    ensures c.interval >= 0 ==> Saved(c)["interval"] == Decimals.Print(c.interval)
    ensures c.interval < 0 ==> Saved(c)["interval"] == "-" + Decimals.Print(-c.interval)
    ensures Int(Saved(c)["interval"]) == Some(c.interval) && Int(Saved(c)["log_interval"]) == Some(c.logInterval)
    ensures c.logPaths != [] && (forall x :: x in c.logPaths ==> ',' !in x) ==>
      Split(Saved(c)["log_paths"]) == c.logPaths
    ensures c.tags != [] && (forall x :: x in c.tags ==> ',' !in x) ==> Split(Saved(c)["tags"]) == c.tags
  {
    hide Int, Join, Split, Strip;
    IntOfStr(c.interval);
    IntOfStr(c.logInterval);
    if c.logPaths != [] && forall x | x in c.logPaths :: ',' !in x { SplitOfJoin(c.logPaths); }
    if c.tags != [] && forall x | x in c.tags :: ',' !in x { SplitOfJoin(c.tags); }
  }
}
