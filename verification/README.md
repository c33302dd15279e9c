# ImageRoller decision core in Dafny

ImageRoller keeps a rolling set of snapshot images for cloud servers. For each configured server, one pass does the following:

- It lists the server's images and keeps only those whose name parses under the image name template `%Y-%m-%d_%H-%M_imageroller`.
- It waits while a save is in progress, and reports the save when it has run past the save timeout.
- Otherwise it requests a new image when no active image is younger than the retention period, or when `--force` is given.
- Otherwise it deletes the active images whose last update is older than the retention period.

Before any pass, the configuration readers validate two files:

- the credentials file (`[AUTH]` with `ApiUser` and `ApiKey`);
- the server file (a `[DEFAULT]` section with `ConcurrentWorkers`, then one section per server with `SaveTimeoutMinutes`, `RetainImageMinutes` and `Region`, and an optional `Enabled`).

The readers turn the server file into the list of enabled servers.

The project models this decision and validation logic as pure functions and proves properties of it:

- `Utils` covers `imageroller/utils.py`: the image filter, the checks, the pass, the identity catalog lookup and the server lookup.
- `Data` covers `imageroller/data.py`: ConfigData, ServerData and ImageData.
- `Main` covers `read_config` and `read_authconfig` of `imageroller/main.py`.

Supporting modules:

- `Calendar`: datetime arithmetic in microseconds since 0001-01-01.
- `TimeFormat`: `strftime` and `strptime` for the `%Y %m %d %H %M` directives and literal text. It follows CPython's `_strptime`: regex alternatives tried in order, case-insensitive literals, whitespace runs matching `\s+`, and "unconverted data remains" when the match does not reach the end.
- `IniConfig`: the part of `configparser` the readers use:
  - DEFAULT fallback;
  - lower-cased option names;
  - `getint` and `getboolean` through a section proxy;
  - `in` on a parser, which also accepts DEFAULT.
- `Seqs`: order-preserving filtering.
- `Text`, `Wrappers`, `Errors`: small shared pieces.

Modelling choices:

- Time is a parameter. `now` is a `DateTime` with microseconds. An image's `created` and `updated` are whole seconds on the same scale.
- "now - t > timedelta(seconds=s)" is decided exactly, as `Elapsed(now, t) > Window(s)` in microseconds. A setting whose day count, the floor of seconds/86400, lies outside ±999999999 is the OverflowError `timedelta` raises (`Calendar.Timedelta`).
- Network traffic is left out. The listed images, the service catalog and the server listing are inputs. The pass returns an `Action`: `Wait`, `TimedOut`, `Create(name)` or `Delete(images)`.
- Python exceptions are `Failure(Error)` values, carrying Python's exception class and message.

## Model

| member | source | states |
|---|---|---|
| Utils.IsAnyInProgress | imageroller/utils.py:237-252 | true exactly when some image in the list is SAVING |
| Utils.IsTimedOut | imageroller/utils.py:255-276 | true exactly when some image is SAVING, below 100 percent, and last updated strictly more than the timeout ago |
| Utils.CompletedSaveNeverTimesOut | imageroller/utils.py:271-273 | a saving image at progress 100 or more never counts as timed out, however old |
| Utils.NeedsImage | imageroller/utils.py:334-360 | always true under force; otherwise false exactly when some ACTIVE image was created strictly less than the retention period ago |
| Utils.ExpiredImages | imageroller/utils.py:317-331 | nothing under force; otherwise every chosen image is an ACTIVE listed image older (by `updated`) than the retention period, and every such image is chosen |
| Utils.ExpiredImagesInOrder | imageroller/utils.py:324-327 | the deletions of a concatenation are the deletions of each part, so input order is kept |
| Utils.Decide | imageroller/utils.py:168-186 | waits or reports exactly when something is saving; reports exactly when also timed out; creates exactly when nothing is saving and an image is needed, under the name for `now`; otherwise deletes the expired images |
| Utils.SavingBlocksCreateAndDelete | imageroller/utils.py:168-174 | any SAVING image means neither a create nor a delete, timed out or not |
| Utils.ForceCreatesUnlessSaving | imageroller/utils.py:176-183 | under force, a pass with nothing saving creates an image, and one with something saving does not |
| Utils.EmptyListCreates | imageroller/utils.py:346-360 | a server with none of the tool's images gets a new one |
| Utils.DeleteSparesAFreshImage | imageroller/utils.py:184-186 | a delete happens only without force and beside an ACTIVE image younger than the retention period, which (when no image was updated before it was created) is not deleted |
| Utils.ProcessServer | imageroller/utils.py:158-186 | with something saving, the pass fails exactly when the save timeout cannot be read or made a timedelta, with that error, and otherwise waits or reports a timeout; under force with nothing saving it creates without reading the retention period; otherwise it fails exactly when the retention period cannot be read or made a timedelta, with that error, and otherwise creates or deletes |
| Utils.ProcessServerAgreesWithDecide | imageroller/utils.py:158-186 | when the settings the pass actually reads are readable, the pass is the decision on the filtered images with those settings in seconds; a setting it does not read may be anything, even broken |
| Utils.HugeTimeoutOverflows | imageroller/utils.py:267-270 | a save timeout of 2000000000000 minutes fails a pass with something saving with an OverflowError |
| Calendar.Timedelta | imageroller/utils.py:268-269 | `timedelta(seconds=n)` succeeds exactly when n lies in [-999999999 days, 1000000000 days) and keeps n; otherwise an OverflowError |
| Utils.OurImages | imageroller/utils.py:220-234 | keeps exactly the listed images whose name parses under the image name template |
| Utils.ForeignImageIgnored | imageroller/utils.py:226-233 | an image with a foreign name is dropped wherever it stands and changes nothing else |
| Utils.OwnImageKept | imageroller/utils.py:226-231 | an image of the tool's own keeps its place relative to the others |
| Utils.CreatedImageIsOurs | imageroller/utils.py:176-182 | the image a pass creates has a name the filter keeps |
| Utils.ImageNameWith | imageroller/utils.py:146-155 | for a template that can read back every date, parsing the name gives back `now` with the unformatted fields reset |
| Utils.ImageName | imageroller/utils.py:36 | the name a pass gives a new image; its contract carries TimeFormat.ImageNameRoundTrip over to that name |
| TimeFormat.RoundTrip | imageroller/utils.py:228-229 | for any template with each directive at most once that names a year whenever it names both month and day, `strptime(strftime(dt))` is `dt` with the fields it does not format reset to 1900-01-01 00:00:00 |
| TimeFormat.Parse | imageroller/utils.py:228-229 | a successful parse is a valid datetime with zero seconds and microseconds |
| TimeFormat.ImageNameRoundTrip | imageroller/test/utils_test.py:197-210 | the default template reads back every field it formats |
| TimeFormat.DateOnlyRoundTrip | imageroller/test/utils_test.py:212-225 | the date-only template reads back the date and zeros the time |
| Utils.FirstRegionUrl | imageroller/utils.py:375-377 | the public URL of the first endpoint in the region, and none exactly when no endpoint is in it |
| Utils.LookupPublicUrl | imageroller/utils.py:363-378 | an entry of the right type and name with an endpoint in the region supplies that URL; any other entry keeps the previous value |
| Utils.ParseRaxIdData | imageroller/utils.py:92-109 | the servers URL and the images URL each resolve independently: none when no entry of that type serves the region, otherwise the URL of the last entry that does |
| Utils.ResolvesToUnique | imageroller/utils.py:102-109 | the catalog and region determine each URL: the resolution has at most one answer |
| Utils.SampleCatalogOrd | imageroller/test/utils_test.py:138-144 | with a compute entry for ORD and HKG and an image entry for ORD and SYD, both URLs resolve in ORD |
| Utils.SampleCatalogDfw | imageroller/test/utils_test.py:146-152 | on the same catalog neither URL resolves in DFW |
| Utils.SampleCatalogSyd | imageroller/test/utils_test.py:154-160 | on the same catalog only the images URL resolves in SYD |
| Utils.SampleCatalogHkg | imageroller/test/utils_test.py:162-168 | on the same catalog only the servers URL resolves in HKG |
| Utils.FindServerId | imageroller/utils.py:131-136 | the id of the first listed server whose lower-cased name equals the configured name, and none exactly when no name matches |
| Utils.UpperCaseNameNeverFound | imageroller/utils.py:133 | only the listed name is lower-cased, so a configured name containing an upper-case letter never matches |
| Data.Saving | imageroller/data.py:348-353 | true exactly when the status is the text SAVING, which is then not ACTIVE |
| Data.Active | imageroller/data.py:356-361 | true exactly when the status is the text ACTIVE, which is then not SAVING |
| Data.SavingExcludesActive | imageroller/data.py:347-361 | no image is both SAVING and ACTIVE |
| Data.NewServerData | imageroller/data.py:90-107 | a new server record keeps its name, section, auto-enable and force flags and has all four identity slots empty |
| Data.WithServerId | imageroller/data.py:171-178 | sets the server id and leaves the token, both URLs and the configuration unchanged |
| Data.WithToken | imageroller/data.py:188-195 | sets the token and leaves the server id, both URLs and the configuration unchanged |
| Data.WithServersUrl | imageroller/data.py:205-212 | sets the servers URL and leaves the other three slots and the configuration unchanged |
| Data.WithImagesUrl | imageroller/data.py:222-229 | sets the images URL and leaves the other three slots and the configuration unchanged |
| Data.Enabled | imageroller/data.py:137-150 | true for a server named on the command line; otherwise the section's `Enabled` as a boolean, false when unset, a ValueError when not a boolean word |
| Data.Region | imageroller/data.py:152-161 | present exactly when the section or DEFAULT sets `Region`, and then that setting's text |
| Data.SaveTimeoutMinutes | imageroller/data.py:231-240 | None when neither the section nor DEFAULT sets the option; its integer when it holds one; an error otherwise |
| Data.RetainImageMinutes | imageroller/data.py:250-259 | None when neither the section nor DEFAULT sets the option; its integer when it holds one; an error otherwise |
| Data.SaveTimeoutSeconds | imageroller/data.py:231-248 | a multiple of 60 whose minutes are the configured value; an error when the setting is missing or not an integer |
| Data.RetainImageSeconds | imageroller/data.py:250-267 | a multiple of 60 whose minutes are the configured value; an error when the setting is missing or not an integer |
| Data.NewConfigData | imageroller/data.py:37-45 | a ValueError exactly when the worker count is at most 0; otherwise that count, unchanged, with no servers |
| Data.Upsert | imageroller/data.py:76 | a known name is replaced where it stands, keeping count and order; a new name is appended; other entries are unchanged; the stored value is present |
| Data.UpsertDistinct | imageroller/data.py:76 | keyed storage keeps names distinct, and the only entry under the stored name is the stored value |
| Data.SetServerData | imageroller/data.py:65-79 | a malformed value is a ValueError, an unreadable `Enabled` propagates, a disabled server changes nothing, an enabled one is stored under its name by keyed replacement, keeping the other servers, their count and their order; worker count and distinct names are kept |
| IniConfig.Get | imageroller/data.py:159 | the section's own value first, then DEFAULT's, none when neither sets the option (names compared lower-cased) |
| IniConfig.GetInt | imageroller/data.py:238 | none when the option is unset; its integer when set to one; a ValueError otherwise |
| IniConfig.ParseBoolean | imageroller/data.py:147-148 | true for 1/yes/true/on and false for 0/no/false/off, in any case; nothing else |
| IniConfig.GetBoolean | imageroller/data.py:147-148 | the fallback when unset, otherwise the boolean word's value, failing exactly when it is not one, with configparser's ValueError "Not a boolean: …" |
| IniConfig.View | imageroller/main.py:144 | the proxy of a section holds that section's options over the defaults |
| IniConfig.ViewOfListed | imageroller/main.py:150-156 | in a parsed file, `parser[name]` for each listed section is that section over the defaults |
| Main.HasAuthConfig | imageroller/main.py:262-270 | the key's value in [AUTH] is non-empty when [AUTH] sets it; otherwise DEFAULT's value is set and non-empty |
| Main.ReadAuthConfig | imageroller/main.py:165-182 | a missing [AUTH], then a missing or empty ApiUser, then a missing or empty ApiKey is reported, first failure first; otherwise exactly the (user, key) texts |
| Main.FirstMissing | imageroller/main.py:151-155 | the first key in list order the section does not resolve, none exactly when all resolve |
| Main.ReadConfig | imageroller/main.py:125-162 | no ConcurrentWorkers in DEFAULT is the first error; a ConcurrentWorkers that is not an integer is getint's ValueError; a worker count at most 0 is a ValueError; a result has at least one server, distinct names, and the worker count of DEFAULT |
| Main.ReadConfigNamedServer | imageroller/main.py:139-147 | with `--server`, an unknown name is rejected and a known one is the only server, auto-enabled, with its keys unchecked |
| Main.ReadConfigAllSections | imageroller/main.py:148-162 | without `--server`, when every section passes, the result is exactly the enabled sections in order, or "You must configure at least one server" when there are none |
| Main.ReadConfigFirstBadSection | imageroller/main.py:149-156 | without `--server`, the first section with a missing key or an unreadable `Enabled` decides the error, disabled sections included |
| Main.AddSectionsAllGood | imageroller/main.py:149-156 | the section loop appends exactly the enabled sections' servers, in order |
| Main.AddSections | imageroller/main.py:149-157 | the section loop keeps the worker count and a valid configuration |
| Main.AddSectionsFirstError | imageroller/main.py:149-156 | the section loop stops at the first failing section with its error |
| Main.SectionOverridesDefault | imageroller/test/config_test.py:451-508 | an enabled section's server is among the enabled sections' servers, and sees its own values first and DEFAULT's for the rest |
| Main.EnabledSectionConfigured | imageroller/main.py:148-160 | without `--server`, when every section passes, each enabled section's server is in the configuration read_config returns |
| Main.RequireServer | imageroller/main.py:158-162 | passes exactly a configuration with at least one server |

## Left out

- Network traffic is not modelled. This covers the identity request, the server and image listings, the create and delete requests, their status codes, and the create-image runner thread. The listings are inputs, and the requests are the `Action` a pass returns.
- Threading is not modelled: the roller manager, the worker threads, the queue, the barrier and the lock.
- The clock is a parameter (`now`), because `datetime.utcnow` is ambient state.
- The provider's `%Y-%m-%dT%H:%M:%SZ` timestamps are not parsed. An image's `created` and `updated` are whole seconds.
- The following are left out as I/O or thin library wrappers: JSON, the header dictionaries, logging, argument parsing, file opening and the process exit.
- `configparser` reading is not modelled. File parsing, value interpolation and `int()` on text are abstracted: a value carries its text and, when `int()` accepts it, its integer.
- `int()` of a non-integer worker count, as in `ConfigData("invalid_value")`, is not modelled. The readers only ever pass integers.
- Case and whitespace are ASCII-only. Upper-to-lower mapping, whitespace and digits follow ASCII, so Unicode case folding, Unicode whitespace and non-ASCII digits in `strptime` are not modelled.
- Years below 1000 are left out of the `%Y` padding. The model pads `%Y` to four digits. The C library underneath `strftime` may not pad years below 1000.
- The ServerData path for a plain dictionary configuration, which the tests use, is not modelled. Only the `SectionProxy` path that `read_config` produces is modelled.
- `server_fqdn` and the string forms of the records are left out, because they only feed log messages.
- Python's exception messages are exact for the tool's own errors. For `configparser`, arithmetic and `timedelta` errors, the model keeps the exception class and the usual CPython wording. For example, `None * 60` raises a TypeError when a timeout is missing on a command-line server.
- The force branch of `_delete_expired_images` is modelled in `ExpiredImages` but cannot be reached from a pass, because under force `_needs_image` is already true.
