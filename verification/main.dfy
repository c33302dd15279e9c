/**
 * The configuration readers of `imageroller/main.py`: `read_authconfig`,
 * which extracts the API credentials, and `read_config`, which validates the
 * server configuration and builds the ConfigData of the servers to process.
 */
module Main {
  import opened Wrappers
  import opened Errors
  import opened IniConfig
  import opened Data

  const RequiredDefault: seq<string> := ["ConcurrentWorkers"]
  const RequiredServer: seq<string> := ["SaveTimeoutMinutes", "RetainImageMinutes", "Region"]
  const WorkersKey := "ConcurrentWorkers"

  const AuthSection := "AUTH"
  const AuthUser := "ApiUser"
  const AuthKey := "ApiKey"

  // ---------------------------------------------------------------- credentials

  /**
   * `_has_auth_config`: the key is set in [AUTH] (or DEFAULT) and not empty.
   * A value of [AUTH]'s own hides DEFAULT's, even when it is empty.
   */
  function HasAuthConfig(p: Parser, key: string): (b: bool)
    requires Contains(p, AuthSection)
    ensures var auth := Proxy(p, AuthSection).entries;
            OptionKey(key) in auth ==> (b <==> |auth[OptionKey(key)].text| > 0)
    ensures var auth := Proxy(p, AuthSection).entries;
            OptionKey(key) !in auth ==> (b <==> OptionKey(key) in p.defaults && |p.defaults[OptionKey(key)].text| > 0)
  {
    HasOption(Proxy(p, AuthSection), key) && |Get(Proxy(p, AuthSection), key).value.text| > 0
  }

  /** `read_authconfig`: the (user, key) pair, or the first missing piece. */
  function ReadAuthConfig(p: Parser): (r: Result<(string, string), Error>)
    ensures !Contains(p, AuthSection) ==> r == Failure(ConfigError("AuthConfig must contain [AUTH]"))
    ensures Contains(p, AuthSection) && !HasAuthConfig(p, AuthUser)
            ==> r == Failure(ConfigError("AuthConfig must contain ApiUser"))
    ensures Contains(p, AuthSection) && HasAuthConfig(p, AuthUser) && !HasAuthConfig(p, AuthKey)
            ==> r == Failure(ConfigError("AuthConfig must contain ApiKey"))
    ensures r.Success? <==> Contains(p, AuthSection) && HasAuthConfig(p, AuthUser) && HasAuthConfig(p, AuthKey)
    ensures r.Success? ==>
              && |r.value.0| > 0 && r.value.0 == Get(Proxy(p, AuthSection), AuthUser).value.text
              && |r.value.1| > 0 && r.value.1 == Get(Proxy(p, AuthSection), AuthKey).value.text
  {
    if !Contains(p, AuthSection) then Failure(ConfigError("AuthConfig must contain [AUTH]"))
    else if !HasAuthConfig(p, AuthUser) then Failure(ConfigError("AuthConfig must contain ApiUser"))
    else if !HasAuthConfig(p, AuthKey) then Failure(ConfigError("AuthConfig must contain ApiKey"))
    else
      var auth := Proxy(p, AuthSection);
      Success((Get(auth, AuthUser).value.text, Get(auth, AuthKey).value.text))
  }

  // ---------------------------------------------------------------- server configuration

  /** The first of `keys` the section does not resolve, if any. */
  function FirstMissing(v: SectionView, keys: seq<string>): (r: Option<string>)
    ensures r.None? <==> forall i :: 0 <= i < |keys| ==> HasOption(v, keys[i])
    ensures r.Some? ==> exists i :: 0 <= i < |keys| && keys[i] == r.value && !HasOption(v, keys[i])
                                    && forall j :: 0 <= j < i ==> HasOption(v, keys[j])
  {
    if |keys| == 0 then None
    else if !HasOption(v, keys[0]) then Some(keys[0])
    else
      var rest := FirstMissing(v, keys[1..]);
      assert forall i :: 1 <= i < |keys| ==> keys[i] == keys[1..][i - 1];
      if rest.Some? then
        var i :| 0 <= i < |keys[1..]| && keys[1..][i] == rest.value && !HasOption(v, keys[1..][i])
                 && forall j :: 0 <= j < i ==> HasOption(v, keys[1..][j]);
        assert keys[i + 1] == rest.value;
        rest
      else rest
  }

  /** The command line: `--server` (None or empty when absent) and `--force`. */
  datatype Args = Args(server: Option<string>, force: bool)

  /** `if args.server:` — an empty name counts as not given. */
  predicate ServerGiven(args: Args) {
    args.server.Some? && args.server.value != ""
  }

  /** The `ConcurrentWorkers` integer of the DEFAULT section, if it has one. */
  function Workers(p: Parser): Option<int> {
    var key := OptionKey(WorkersKey);
    if key in p.defaults then p.defaults[key].number else None
  }

  /** The server record a configuration section produces. */
  function SectionServer(s: Section, defaults: Entries, force: bool): ServerData {
    NewServerData(s.name, ViewOf(s, defaults), false, force)
  }

  /**
   * What one section contributes: a missing required key (checked in order,
   * even for a disabled section), an unreadable `Enabled`, or whether it is enabled.
   */
  function SectionCheck(s: Section, defaults: Entries, force: bool): Result<bool, Error> {
    match FirstMissing(ViewOf(s, defaults), RequiredServer)
    case Some(key) => Failure(ConfigError("Server Config for " + s.name + " is missing " + key))
    case None => Enabled(SectionServer(s, defaults, force))
  }

  /** The loop over `cfg_parser.sections()`: check each section, then assign it to the configuration. */
  function AddSections(config: ConfigData, sections: seq<Section>, defaults: Entries, force: bool)
    : (r: Result<ConfigData, Error>)
    ensures r.Success? ==> r.value.concurrentWorkers == config.concurrentWorkers
    ensures r.Success? && ValidConfig(config) ==> ValidConfig(r.value)
    decreases |sections|
  {
    if |sections| == 0 then Success(config)
    else
      var view := ViewOf(sections[0], defaults);
      match FirstMissing(view, RequiredServer)
      case Some(key) => Failure(ConfigError("Server Config for " + sections[0].name + " is missing " + key))
      case None =>
        var next :- SetServerData(config, Record(NewServerData(sections[0].name, view, false, force)));
        AddSections(next, sections[1..], defaults, force)
  }

  /** `if len(config_data.server_data) > 0`. */
  function RequireServer(config: ConfigData): (r: Result<ConfigData, Error>)
    ensures |config.servers| > 0 <==> r == Success(config)
    ensures |config.servers| == 0 <==> r == Failure(ConfigError("You must configure at least one server"))
  {
    if |config.servers| > 0 then Success(config)
    else Failure(ConfigError("You must configure at least one server"))
  }

  /** `read_config`. */
  function ReadConfig(args: Args, p: Parser): (r: Result<ConfigData, Error>)
    requires WellFormed(p)
    ensures !HasOption(DefaultView(p), WorkersKey) ==> r == Failure(ConfigError("Config must contain ConcurrentWorkers"))
    ensures HasOption(DefaultView(p), WorkersKey) && Workers(p).Some? && Workers(p).value <= 0
            ==> r == Failure(ValueError("Concurrent workers must be greater than 0"))
    ensures HasOption(DefaultView(p), WorkersKey) && Workers(p).None?
            ==> r == Failure(ValueError("invalid literal for int() with base 10: '"
                                        + Get(DefaultView(p), WorkersKey).value.text + "'"))
    ensures r.Success? ==> ValidConfig(r.value) && |r.value.servers| > 0
                           && Workers(p) == Some(r.value.concurrentWorkers)
  {
    match FirstMissing(DefaultView(p), RequiredDefault)
    case Some(_) => Failure(ConfigError("Config must contain ConcurrentWorkers"))
    case None =>
      var workers :- GetInt(DefaultView(p), WorkersKey);
      var config :- NewConfigData(workers.value);
      if ServerGiven(args) then
        var name := args.server.value;
        if Contains(p, name) then
          var single :- SetServerData(config, Record(NewServerData(name, Proxy(p, name), true, args.force)));
          RequireServer(single)
        else
          Failure(ConfigError("The specified server is not configured: " + name))
      else
        var all :- AddSections(config, p.sections, p.defaults, args.force);
        RequireServer(all)
  }

  // ---------------------------------------------------------------- properties of read_config

  /** The server a section adds when it passes its checks: its own when enabled, none otherwise. */
  function Contribution(s: Section, defaults: Entries, force: bool): seq<ServerData> {
    if SectionCheck(s, defaults, force) == Success(true) then [SectionServer(s, defaults, force)] else []
  }

  /** The servers the enabled sections produce, in section order. */
  function EnabledServers(sections: seq<Section>, defaults: Entries, force: bool): seq<ServerData> {
    if |sections| == 0 then []
    else Contribution(sections[0], defaults, force) + EnabledServers(sections[1..], defaults, force)
  }

  /** Every enabled section's server is among the enabled servers. */
  lemma {:induction false} EnabledServerListed(sections: seq<Section>, defaults: Entries, force: bool, k: nat)
    requires k < |sections| && SectionCheck(sections[k], defaults, force) == Success(true)
    ensures SectionServer(sections[k], defaults, force) in EnabledServers(sections, defaults, force)
    decreases k
  {
    if k > 0 {
      assert sections[1..][k - 1] == sections[k];
      EnabledServerListed(sections[1..], defaults, force, k - 1);
    }
  }

  predicate DistinctSectionNames(sections: seq<Section>) {
    forall i, j :: 0 <= i < j < |sections| ==> sections[i].name != sections[j].name
  }

  /**
   * When every section passes its checks, the loop appends exactly the
   * enabled sections' servers, in order, to those already configured.
   */
  lemma {:induction false} AddSectionsAllGood(config: ConfigData, sections: seq<Section>, defaults: Entries,
                                              force: bool)
    requires DistinctSectionNames(sections)
    requires forall i :: 0 <= i < |sections| ==> SectionCheck(sections[i], defaults, force).Success?
    requires forall i :: 0 <= i < |sections| ==> sections[i].name !in Names(config.servers)
    ensures AddSections(config, sections, defaults, force)
            == Success(config.(servers := config.servers + EnabledServers(sections, defaults, force)))
    decreases |sections|
  {
    if |sections| == 0 {
      assert config.servers + [] == config.servers;
    } else {
      var tail := sections[1..];
      var next := config.(servers := config.servers + Contribution(sections[0], defaults, force));
      AddOneStep(config, sections, defaults, force);
      assert forall i :: 0 <= i < |tail| ==> tail[i] == sections[i + 1];
      AddSectionsAllGood(next, tail, defaults, force);
      AllGoodStep(AddSections(config, sections, defaults, force), config, Contribution(sections[0], defaults, force),
                  EnabledServers(tail, defaults, force), EnabledServers(sections, defaults, force));
    }
  }

  /** The induction step of AddSectionsAllGood, as list arithmetic. */
  lemma AllGoodStep(r: Result<ConfigData, Error>, config: ConfigData, added: seq<ServerData>,
                    rest: seq<ServerData>, all: seq<ServerData>)
    requires all == added + rest
    requires r == Success(config.(servers := (config.servers + added) + rest))
    ensures r == Success(config.(servers := config.servers + all))
  {
    assert (config.servers + added) + rest == config.servers + (added + rest);
  }

  /**
   * One section that passes its checks: its contribution is appended, and
   * the later sections' names are still new.
   */
  lemma AddOneStep(config: ConfigData, sections: seq<Section>, defaults: Entries, force: bool)
    requires |sections| > 0 && DistinctSectionNames(sections)
    requires SectionCheck(sections[0], defaults, force).Success?
    requires forall i :: 0 <= i < |sections| ==> sections[i].name !in Names(config.servers)
    ensures var next := config.(servers := config.servers + Contribution(sections[0], defaults, force));
            && AddSections(config, sections, defaults, force) == AddSections(next, sections[1..], defaults, force)
            && DistinctSectionNames(sections[1..])
            && forall i :: 1 <= i < |sections| ==> sections[i].name !in Names(next.servers)
  {
    var s := sections[0];
    var server := SectionServer(s, defaults, force);
    assert FirstMissing(ViewOf(s, defaults), RequiredServer).None?;
    assert Enabled(server) == SectionCheck(s, defaults, force);
    assert s.name !in Names(config.servers);
    if SectionCheck(s, defaults, force) == Success(true) {
      assert Upsert(config.servers, server) == config.servers + [server];
      assert Names(config.servers + [server]) == Names(config.servers) + [s.name];
    } else {
      assert config.servers + [] == config.servers;
    }
  }

  /** One turn of the loop: the first section's check either ends it or leads to the rest. */
  lemma AddHead(config: ConfigData, sections: seq<Section>, defaults: Entries, force: bool)
    requires |sections| > 0
    ensures var check := SectionCheck(sections[0], defaults, force);
            && (check.Failure? ==> AddSections(config, sections, defaults, force) == Failure(check.error))
            && (check.Success? ==>
                  var next := SetServerData(config, Record(SectionServer(sections[0], defaults, force)));
                  next.Success?
                  && AddSections(config, sections, defaults, force)
                     == AddSections(next.value, sections[1..], defaults, force))
  {
  }

  /** The first section that fails its checks decides the error; later sections are never looked at. */
  lemma {:induction false} AddSectionsFirstError(config: ConfigData, sections: seq<Section>, defaults: Entries,
                                                 force: bool, k: nat)
    requires k < |sections|
    requires forall i :: 0 <= i < k ==> SectionCheck(sections[i], defaults, force).Success?
    requires SectionCheck(sections[k], defaults, force).Failure?
    ensures AddSections(config, sections, defaults, force) == Failure(SectionCheck(sections[k], defaults, force).error)
    decreases k
  {
    AddHead(config, sections, defaults, force);
    if k > 0 {
      var tail := sections[1..];
      assert forall i :: 0 <= i < |tail| ==> tail[i] == sections[i + 1];
      var next := SetServerData(config, Record(SectionServer(sections[0], defaults, force)));
      AddSectionsFirstError(next.value, tail, defaults, force, k - 1);
    }
  }

  /** Without `--server`, a configuration whose sections all pass yields exactly the enabled sections. */
  lemma ReadConfigAllSections(args: Args, p: Parser)
    requires WellFormed(p) && !ServerGiven(args)
    requires HasOption(DefaultView(p), WorkersKey) && Workers(p).Some? && Workers(p).value >= 1
    requires forall i :: 0 <= i < |p.sections| ==> SectionCheck(p.sections[i], p.defaults, args.force).Success?
    ensures var servers := EnabledServers(p.sections, p.defaults, args.force);
            ReadConfig(args, p) == if |servers| == 0
                                   then Failure(ConfigError("You must configure at least one server"))
                                   else Success(ConfigData(Workers(p).value, servers))
  {
    var config := ConfigData(Workers(p).value, []);
    assert NewConfigData(Workers(p).value) == Success(config);
    AddSectionsAllGood(config, p.sections, p.defaults, args.force);
    assert [] + EnabledServers(p.sections, p.defaults, args.force) == EnabledServers(p.sections, p.defaults, args.force);
  }

  /** Without `--server`, the first failing section's error is the result. */
  lemma ReadConfigFirstBadSection(args: Args, p: Parser, k: nat)
    requires WellFormed(p) && !ServerGiven(args)
    requires HasOption(DefaultView(p), WorkersKey) && Workers(p).Some? && Workers(p).value >= 1
    requires k < |p.sections|
    requires forall i :: 0 <= i < k ==> SectionCheck(p.sections[i], p.defaults, args.force).Success?
    requires SectionCheck(p.sections[k], p.defaults, args.force).Failure?
    ensures ReadConfig(args, p) == Failure(SectionCheck(p.sections[k], p.defaults, args.force).error)
  {
    var config := ConfigData(Workers(p).value, []);
    assert NewConfigData(Workers(p).value) == Success(config);
    AddSectionsFirstError(config, p.sections, p.defaults, args.force, k);
  }

  /**
   * With `--server`, an unknown name is rejected and a known one (DEFAULT
   * included) becomes the only server, enabled, its keys unchecked.
   */
  lemma ReadConfigNamedServer(args: Args, p: Parser)
    requires WellFormed(p) && ServerGiven(args)
    requires HasOption(DefaultView(p), WorkersKey) && Workers(p).Some? && Workers(p).value >= 1
    ensures var name := args.server.value;
            ReadConfig(args, p)
            == if Contains(p, name)
               then Success(ConfigData(Workers(p).value, [NewServerData(name, Proxy(p, name), true, args.force)]))
               else Failure(ConfigError("The specified server is not configured: " + name))
  {
    var config := ConfigData(Workers(p).value, []);
    assert NewConfigData(Workers(p).value) == Success(config);
  }

  /**
   * Every server read from the sections sees its own section over DEFAULT, so
   * a per-section value overrides the DEFAULT one and the rest fall back.
   */
  lemma SectionOverridesDefault(args: Args, p: Parser, k: nat, option: string)
    requires WellFormed(p) && !ServerGiven(args) && k < |p.sections|
    requires SectionCheck(p.sections[k], p.defaults, args.force) == Success(true)
    ensures SectionServer(p.sections[k], p.defaults, args.force) in EnabledServers(p.sections, p.defaults, args.force)
    ensures var server := SectionServer(p.sections[k], p.defaults, args.force);
            && (OptionKey(option) in p.sections[k].entries ==>
                  Get(server.config, option) == Some(p.sections[k].entries[OptionKey(option)]))
            && (OptionKey(option) !in p.sections[k].entries && OptionKey(option) in p.defaults ==>
                  Get(server.config, option) == Some(p.defaults[OptionKey(option)]))
  {
    EnabledServerListed(p.sections, p.defaults, args.force, k);
  }

  /** Without `--server`, when every section passes, each enabled section's server is configured. */
  lemma EnabledSectionConfigured(args: Args, p: Parser, k: nat)
    requires WellFormed(p) && !ServerGiven(args)
    requires HasOption(DefaultView(p), WorkersKey) && Workers(p).Some? && Workers(p).value >= 1
    requires forall i :: 0 <= i < |p.sections| ==> SectionCheck(p.sections[i], p.defaults, args.force).Success?
    requires k < |p.sections| && SectionCheck(p.sections[k], p.defaults, args.force) == Success(true)
    ensures ReadConfig(args, p).Success?
    ensures SectionServer(p.sections[k], p.defaults, args.force) in ReadConfig(args, p).value.servers
  {
    EnabledServerListed(p.sections, p.defaults, args.force, k);
    ReadConfigAllSections(args, p);
  }
}
