/**
 * The records of `imageroller/data.py`: the global configuration with its
 * name-keyed, insertion-ordered collection of enabled servers, one server's
 * configuration and identity slots, and one image as the provider lists it.
 */
module Data {
  import opened Wrappers
  import opened Errors
  import opened IniConfig

  // ---------------------------------------------------------------- ImageData

  /**
   * One image of a server. `created` and `updated` are whole seconds since
   * 0001-01-01T00:00:00 UTC, the provider's `%Y-%m-%dT%H:%M:%SZ` timestamps.
   */
  datatype ImageData = ImageData(id: string, name: string, created: int, updated: int,
                                 status: string, progress: int)

  const StatusSaving := "SAVING"
  const StatusActive := "ACTIVE"

  /** The `saving` property: the status is exactly `SAVING`, so the image is not active. */
  function Saving(image: ImageData): (b: bool)
    ensures b <==> image.status == "SAVING"
    ensures b ==> image.status != StatusActive
  {
    image.status == StatusSaving
  }

  /** The `active` property: the status is exactly `ACTIVE`, so the image is not saving. */
  function Active(image: ImageData): (b: bool)
    ensures b <==> image.status == "ACTIVE"
    ensures b ==> image.status != StatusSaving
  {
    image.status == StatusActive
  }

  /** No image is both saving and active. */
  lemma SavingExcludesActive(image: ImageData)
    ensures !(Saving(image) && Active(image))
  {
  }

  // ---------------------------------------------------------------- ServerData

  const IndexServerId := 0
  const IndexToken := 1
  const IndexServersUrl := 2
  const IndexImagesUrl := 3

  /** server id, token, servers URL, images URL, in that order. */
  type IdentitySlots = s: seq<Option<string>> | |s| == 4 witness [None, None, None, None]

  /**
   * One configured server: its name (the section name), its section of the
   * configuration, whether it was named on the command line (`autoEnable`),
   * whether `--force` was given, and the four identity slots the run fills in.
   */
  datatype ServerData = ServerData(name: string, config: SectionView, autoEnable: bool,
                                   force: bool, identity: IdentitySlots)

  function ServerId(s: ServerData): Option<string> { s.identity[IndexServerId] }
  function Token(s: ServerData): Option<string> { s.identity[IndexToken] }
  function ServersUrl(s: ServerData): Option<string> { s.identity[IndexServersUrl] }
  function ImagesUrl(s: ServerData): Option<string> { s.identity[IndexImagesUrl] }

  /** `ServerData(name, config, auto_enable, force)`: every identity slot starts empty. */
  function NewServerData(name: string, config: SectionView, autoEnable: bool, force: bool): (s: ServerData)
    ensures s.name == name && s.config == config && s.autoEnable == autoEnable && s.force == force
    ensures ServerId(s).None? && Token(s).None? && ServersUrl(s).None? && ImagesUrl(s).None?
  {
    ServerData(name, config, autoEnable, force, [None, None, None, None])
  }

  /** The configuration part of a server: everything but the identity slots. */
  predicate SameConfiguration(a: ServerData, b: ServerData) {
    a.name == b.name && a.config == b.config && a.autoEnable == b.autoEnable && a.force == b.force
  }

  function SetSlot(s: ServerData, index: nat, value: Option<string>): ServerData
    requires index < 4
  {
    s.(identity := s.identity[index := value])
  }

  /** The `server_id` setter. */
  function WithServerId(s: ServerData, value: Option<string>): (r: ServerData)
    ensures ServerId(r) == value
    ensures Token(r) == Token(s) && ServersUrl(r) == ServersUrl(s) && ImagesUrl(r) == ImagesUrl(s)
    ensures SameConfiguration(r, s)
  {
    SetSlot(s, IndexServerId, value)
  }

  /** The `token` setter. */
  function WithToken(s: ServerData, value: Option<string>): (r: ServerData)
    ensures Token(r) == value
    ensures ServerId(r) == ServerId(s) && ServersUrl(r) == ServersUrl(s) && ImagesUrl(r) == ImagesUrl(s)
    ensures SameConfiguration(r, s)
  {
    SetSlot(s, IndexToken, value)
  }

  /** The `servers_url` setter. */
  function WithServersUrl(s: ServerData, value: Option<string>): (r: ServerData)
    ensures ServersUrl(r) == value
    ensures ServerId(r) == ServerId(s) && Token(r) == Token(s) && ImagesUrl(r) == ImagesUrl(s)
    ensures SameConfiguration(r, s)
  {
    SetSlot(s, IndexServersUrl, value)
  }

  /** The `images_url` setter. */
  function WithImagesUrl(s: ServerData, value: Option<string>): (r: ServerData)
    ensures ImagesUrl(r) == value
    ensures ServerId(r) == ServerId(s) && Token(r) == Token(s) && ServersUrl(r) == ServersUrl(s)
    ensures SameConfiguration(r, s)
  {
    SetSlot(s, IndexImagesUrl, value)
  }

  /**
   * The `enabled` property: true for a server named on the command line,
   * otherwise the section's `Enabled` option read as a boolean, false when unset.
   */
  function Enabled(s: ServerData): (r: Result<bool, Error>)
    ensures s.autoEnable ==> r == Success(true)
    ensures !s.autoEnable && !HasOption(s.config, "Enabled") ==> r == Success(false)
    ensures !s.autoEnable && HasOption(s.config, "Enabled") ==>
              match ParseBoolean(Get(s.config, "Enabled").value.text)
              case Some(b) => r == Success(b)
              case None => r.Failure? && r.error.ValueError?
  {
    if s.autoEnable then Success(true) else GetBoolean(s.config, "Enabled", false)
  }

  /** The `region` property; None when neither the section nor DEFAULT sets it. */
  function Region(s: ServerData): (r: Option<string>)
    ensures r.Some? <==> HasOption(s.config, "Region")
    ensures r.Some? ==> r.value == Get(s.config, "Region").value.text
  {
    match Get(s.config, "Region")
    case Some(v) => Some(v.text)
    case None => None
  }

  /** `save_timeout_minutes`: None when neither the section nor DEFAULT sets it. */
  function SaveTimeoutMinutes(s: ServerData): (r: Result<Option<int>, Error>)
    ensures !HasOption(s.config, "SaveTimeoutMinutes") ==> r == Success(None)
    ensures HasOption(s.config, "SaveTimeoutMinutes") ==>
              (r.Success? <==> Get(s.config, "SaveTimeoutMinutes").value.number.Some?)
              && (r.Success? ==> r.value == Get(s.config, "SaveTimeoutMinutes").value.number)
  {
    GetInt(s.config, "SaveTimeoutMinutes")
  }

  /** `retain_image_minutes`: None when neither the section nor DEFAULT sets it. */
  function RetainImageMinutes(s: ServerData): (r: Result<Option<int>, Error>)
    ensures !HasOption(s.config, "RetainImageMinutes") ==> r == Success(None)
    ensures HasOption(s.config, "RetainImageMinutes") ==>
              (r.Success? <==> Get(s.config, "RetainImageMinutes").value.number.Some?)
              && (r.Success? ==> r.value == Get(s.config, "RetainImageMinutes").value.number)
  {
    GetInt(s.config, "RetainImageMinutes")
  }

  /** Multiplying a missing setting by 60. */
  const MissingTimesSixty := TypeError("unsupported operand type(s) for *: 'NoneType' and 'int'")

  /** Minutes to seconds, as `minutes * 60` does with a value that may be None. */
  function ToSeconds(minutes: Result<Option<int>, Error>): (r: Result<int, Error>)
    ensures minutes.Failure? ==> r == Failure(minutes.error)
    ensures minutes == Success(None) ==> r == Failure(MissingTimesSixty)
    ensures minutes.Success? && minutes.value.Some? ==>
              r.Success? && r.value % 60 == 0 && r.value / 60 == minutes.value.value
  {
    var m :- minutes;
    match m
    case None => Failure(MissingTimesSixty)
    case Some(n) => Success(n * 60)
  }

  /** `save_timeout_seconds`: the configured minutes as seconds. */
  function SaveTimeoutSeconds(s: ServerData): (r: Result<int, Error>)
    ensures r.Success? <==> SaveTimeoutMinutes(s).Success? && SaveTimeoutMinutes(s).value.Some?
    ensures r.Success? ==> r.value % 60 == 0 && r.value / 60 == SaveTimeoutMinutes(s).value.value
  {
    ToSeconds(SaveTimeoutMinutes(s))
  }

  /** `retain_image_seconds`: the configured minutes as seconds. */
  function RetainImageSeconds(s: ServerData): (r: Result<int, Error>)
    ensures r.Success? <==> RetainImageMinutes(s).Success? && RetainImageMinutes(s).value.Some?
    ensures r.Success? ==> r.value % 60 == 0 && r.value / 60 == RetainImageMinutes(s).value.value
  {
    ToSeconds(RetainImageMinutes(s))
  }

  // ---------------------------------------------------------------- ConfigData

  /** The global configuration: the worker count and the enabled servers in insertion order. */
  datatype ConfigData = ConfigData(concurrentWorkers: int, servers: seq<ServerData>)

  function Names(servers: seq<ServerData>): (r: seq<string>)
    ensures |r| == |servers| && forall i :: 0 <= i < |servers| ==> r[i] == servers[i].name
  {
    seq(|servers|, i requires 0 <= i < |servers| => servers[i].name)
  }

  /** The servers are keyed by name: no name occurs twice. */
  predicate DistinctNames(servers: seq<ServerData>) {
    forall i, j :: 0 <= i < j < |servers| ==> servers[i].name != servers[j].name
  }

  /** What every ConfigData the constructor and setter produce satisfies. */
  predicate ValidConfig(c: ConfigData) {
    c.concurrentWorkers >= 1 && DistinctNames(c.servers)
  }

  /** `ConfigData(concurrent_workers)`. */
  function NewConfigData(workers: int): (r: Result<ConfigData, Error>)
    ensures workers <= 0 <==> r == Failure(ValueError("Concurrent workers must be greater than 0"))
    ensures workers >= 1 ==> r.Success? && r.value.concurrentWorkers == workers && |r.value.servers| == 0
    ensures r.Success? ==> ValidConfig(r.value)
  {
    if workers <= 0 then Failure(ValueError("Concurrent workers must be greater than 0"))
    else Success(ConfigData(workers, []))
  }

  /**
   * `ordered_dict[server.name] = server`: an existing entry of that name is
   * replaced where it stands, a new name is appended.
   */
  function Upsert(servers: seq<ServerData>, v: ServerData): (r: seq<ServerData>)
    ensures v.name in Names(servers) ==> Names(r) == Names(servers)
    ensures v.name !in Names(servers) ==> r == servers + [v]
    ensures forall i :: 0 <= i < |servers| && servers[i].name != v.name ==> r[i] == servers[i]
    ensures v in r
    decreases |servers|
  {
    if |servers| == 0 then [v]
    else if servers[0].name == v.name then [v] + servers[1..]
    else [servers[0]] + Upsert(servers[1..], v)
  }

  /** Upserting into a keyed list keeps it keyed, and the one entry under `v`'s name is `v`. */
  lemma {:induction false} UpsertDistinct(servers: seq<ServerData>, v: ServerData)
    ensures DistinctNames(servers) ==> DistinctNames(Upsert(servers, v))
    ensures DistinctNames(servers) ==>
              forall i :: 0 <= i < |Upsert(servers, v)| && Upsert(servers, v)[i].name == v.name ==>
                Upsert(servers, v)[i] == v
    decreases |servers|
  {
    var r := Upsert(servers, v);
    if |servers| == 0 || !DistinctNames(servers) {
    } else if servers[0].name == v.name {
      assert forall i :: 1 <= i < |r| ==> r[i] == servers[i];
    } else {
      var tail := servers[1..];
      assert forall i :: 0 <= i < |tail| ==> tail[i] == servers[i + 1];
      UpsertDistinct(tail, v);
      var rest := Upsert(tail, v);
      assert r == [servers[0]] + rest;
      forall i | 0 <= i < |rest| ensures rest[i].name != servers[0].name {
        if v.name in Names(tail) {
          assert rest[i].name == Names(rest)[i] == Names(tail)[i] == tail[i].name;
        } else {
          assert rest == tail + [v];
        }
      }
    }
  }

  /** What may be assigned to `server_data`: a server record, or an object lacking `name`/`enabled`. */
  datatype Assigned = Record(server: ServerData) | Malformed

  /** The `server_data` setter: keeps enabled servers, drops disabled ones silently. */
  function SetServerData(c: ConfigData, value: Assigned): (r: Result<ConfigData, Error>)
    ensures value.Malformed? ==> r == Failure(ValueError(
              "Invalid object set as server data (name and/or enabled attrs missing)"))
    ensures value.Record? && Enabled(value.server).Failure? ==> r == Failure(Enabled(value.server).error)
    ensures value.Record? && Enabled(value.server) == Success(false) ==> r == Success(c)
    ensures value.Record? && Enabled(value.server) == Success(true) ==>
              r.Success? && r.value.concurrentWorkers == c.concurrentWorkers
              && value.server in r.value.servers && |r.value.servers| <= |c.servers| + 1
    ensures value.Record? && Enabled(value.server) == Success(true) ==>
              r == Success(c.(servers := Upsert(c.servers, value.server)))
    ensures r.Success? && ValidConfig(c) ==> ValidConfig(r.value)
  {
    match value
    case Malformed =>
      Failure(ValueError("Invalid object set as server data (name and/or enabled attrs missing)"))
    case Record(s) =>
      match Enabled(s)
      case Failure(e) => Failure(e)
      case Success(enabled) =>
        if enabled then
          UpsertDistinct(c.servers, s);
          Success(c.(servers := Upsert(c.servers, s)))
        else Success(c)
  }
}
