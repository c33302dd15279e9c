/**
 * The decision logic of `imageroller/utils.py`: which of a server's images
 * belong to the tool, whether a save is in progress or has timed out, whether
 * a new image is needed, which images have expired, and what one pass over a
 * server does. Also the pure parts of the identity and server lookups.
 */
module Utils {
  import opened Wrappers
  import opened Errors
  import opened Text
  import opened Seqs
  import opened Calendar
  import opened TimeFormat
  import opened Data

  // ---------------------------------------------------------------- image names

  /** `get_image_name(utcnow, name_template)`: `utcnow.strftime(name_template)`. */
  function ImageNameWith(now: DateTime, template: ValidTemplate): (name: string)
    requires Valid(now)
    ensures ReadsBackEveryDate(template) ==> Parse(template, name) == Some(Truncate(template, now))
  {
    if ReadsBackEveryDate(template) then RoundTrip(template, now); Format(template, now)
    else Format(template, now)
  }

  /**
   * `get_image_name(utcnow)` with the default template. Its contract is
   * TimeFormat.ImageNameRoundTrip, carried over so callers need not name the format.
   */
  function ImageName(now: DateTime): (name: string)
    requires Valid(now)
    ensures Parse(ImageNameTemplate, name)
            == Some(DateTime(now.year, now.month, now.day, now.hour, now.minute, 0, 0))
  {
    ImageNameRoundTrip(now);
    ImageNameWith(now, ImageNameTemplate)
  }

  // ---------------------------------------------------------------- the image filter

  /** An image is the tool's own when its name parses under the image name template. */
  predicate IsOurs(image: ImageData) {
    Parse(ImageNameTemplate, image.name).Some?
  }

  /** `_get_images`: the listed images whose names parse, in listed order. */
  function OurImages(listed: seq<ImageData>): (images: seq<ImageData>)
    ensures |images| <= |listed|
    ensures forall i :: 0 <= i < |images| ==> images[i] in listed && IsOurs(images[i])
    ensures forall i :: 0 <= i < |listed| && IsOurs(listed[i]) ==> listed[i] in images
  {
    Filter(listed, IsOurs)
  }

  /** An image with a foreign name is dropped wherever it appears, and changes nothing else. */
  lemma ForeignImageIgnored(before: seq<ImageData>, image: ImageData, after: seq<ImageData>)
    requires !IsOurs(image)
    ensures OurImages(before + [image] + after) == OurImages(before) + OurImages(after)
  {
    FilterAround(before, image, after, IsOurs);
  }

  /** An image of the tool's own keeps its place relative to the others. */
  lemma OwnImageKept(before: seq<ImageData>, image: ImageData, after: seq<ImageData>)
    requires IsOurs(image)
    ensures OurImages(before + [image] + after) == OurImages(before) + [image] + OurImages(after)
  {
    FilterAround(before, image, after, IsOurs);
  }

  /** Every image named by the tool itself passes the filter. */
  lemma CreatedImageIsOurs(now: DateTime, image: ImageData)
    requires Valid(now) && image.name == ImageName(now)
    ensures IsOurs(image)
  {
  }

  // ---------------------------------------------------------------- the checks

  /** `_is_any_in_progress`: some image is saving. */
  function IsAnyInProgress(images: seq<ImageData>): (b: bool)
    ensures b <==> exists i :: 0 <= i < |images| && Saving(images[i])
  {
    if |images| == 0 then false
    else if Saving(images[0]) then true
    else
      var rest := IsAnyInProgress(images[1..]);
      assert forall i :: 1 <= i < |images| ==> images[i] == images[1..][i - 1];
      rest
  }

  /**
   * `_is_timed_out`: some image is saving, below 100 percent, and was last
   * updated strictly more than the timeout ago.
   */
  function IsTimedOut(now: DateTime, timeoutSeconds: int, images: seq<ImageData>): (b: bool)
    ensures b <==> exists i :: 0 <= i < |images| && Saving(images[i]) && images[i].progress < 100
                               && Elapsed(now, images[i].updated) > Window(timeoutSeconds)
  {
    if |images| == 0 then false
    else
      var image := images[0];
      if Saving(image) && image.progress < 100 && Elapsed(now, image.updated) > Window(timeoutSeconds) then true
      else
        var rest := IsTimedOut(now, timeoutSeconds, images[1..]);
        assert forall i :: 1 <= i < |images| ==> images[i] == images[1..][i - 1];
        rest
  }

  /**
   * `_needs_image`: always under force; otherwise unless some active image
   * was created strictly less than the retention period ago.
   */
  function NeedsImage(now: DateTime, force: bool, retainSeconds: int, images: seq<ImageData>): (b: bool)
    ensures force ==> b
    ensures !force ==> (!b <==> exists i :: 0 <= i < |images| && Active(images[i])
                                             && Elapsed(now, images[i].created) < Window(retainSeconds))
  {
    if force then true
    else if |images| == 0 then true
    else
      var image := images[0];
      if Active(image) && Elapsed(now, image.created) < Window(retainSeconds) then false
      else
        var rest := NeedsImage(now, force, retainSeconds, images[1..]);
        assert forall i :: 1 <= i < |images| ==> images[i] == images[1..][i - 1];
        rest
  }

  /** Whether `_delete_expired_images` deletes this image (when not forced). */
  predicate Expired(now: DateTime, retainSeconds: int, image: ImageData) {
    Active(image) && Elapsed(now, image.updated) > Window(retainSeconds)
  }

  /**
   * The images `_delete_expired_images` sends delete requests for, in list
   * order: none under force, otherwise the active ones last updated strictly
   * more than the retention period ago.
   */
  function ExpiredImages(now: DateTime, force: bool, retainSeconds: int, images: seq<ImageData>)
    : (doomed: seq<ImageData>)
    ensures force ==> doomed == []
    ensures |doomed| <= |images|
    ensures forall i :: 0 <= i < |doomed| ==>
              doomed[i] in images && Active(doomed[i]) && Elapsed(now, doomed[i].updated) > Window(retainSeconds)
    ensures !force ==> forall i :: 0 <= i < |images| && Active(images[i])
                                   && Elapsed(now, images[i].updated) > Window(retainSeconds)
                                   ==> images[i] in doomed
  {
    if force then [] else Filter(images, image => Expired(now, retainSeconds, image))
  }

  /** Selection is per image: the doomed images of a concatenation are the concatenation of the doomed. */
  lemma ExpiredImagesInOrder(now: DateTime, force: bool, retainSeconds: int, a: seq<ImageData>, b: seq<ImageData>)
    ensures ExpiredImages(now, force, retainSeconds, a + b)
            == ExpiredImages(now, force, retainSeconds, a) + ExpiredImages(now, force, retainSeconds, b)
  {
    if !force {
      FilterAppend(a, b, image => Expired(now, retainSeconds, image));
    }
  }

  // ---------------------------------------------------------------- one pass

  /** What a pass does to a server. */
  datatype Action =
    | Wait                          // a save is in progress within its timeout
    | TimedOut                      // a save is in progress past its timeout; only logged
    | Create(name: string)          // request a new image with this name
    | Delete(images: seq<ImageData>) // request deletion of these images, in order

  /** The server settings a pass depends on, already converted to seconds. */
  datatype Policy = Policy(saveTimeoutSeconds: int, retainImageSeconds: int, force: bool)

  /** The body of `process_server` on the server's own images. */
  function Decide(now: DateTime, policy: Policy, images: seq<ImageData>): (a: Action)
    requires Valid(now)
    ensures IsAnyInProgress(images) <==> a.Wait? || a.TimedOut?
    ensures a.TimedOut? <==> IsAnyInProgress(images) && IsTimedOut(now, policy.saveTimeoutSeconds, images)
    ensures a.Create? <==> !IsAnyInProgress(images) && NeedsImage(now, policy.force, policy.retainImageSeconds, images)
    ensures a.Create? ==> a.name == ImageName(now)
    ensures a.Delete? ==> a.images == ExpiredImages(now, policy.force, policy.retainImageSeconds, images)
  {
    if IsAnyInProgress(images) then
      if IsTimedOut(now, policy.saveTimeoutSeconds, images) then TimedOut else Wait
    else if NeedsImage(now, policy.force, policy.retainImageSeconds, images) then
      Create(ImageName(now))
    else
      Delete(ExpiredImages(now, policy.force, policy.retainImageSeconds, images))
  }

  /** A saving image blocks both creation and deletion, timed out or not. */
  lemma SavingBlocksCreateAndDelete(now: DateTime, policy: Policy, images: seq<ImageData>, k: nat)
    requires Valid(now) && k < |images| && Saving(images[k])
    ensures Decide(now, policy, images) == Wait || Decide(now, policy, images) == TimedOut
  {
  }

  /** Under force, a pass with nothing saving creates an image. */
  lemma ForceCreatesUnlessSaving(now: DateTime, policy: Policy, images: seq<ImageData>)
    requires Valid(now) && policy.force
    ensures !IsAnyInProgress(images) ==> Decide(now, policy, images) == Create(ImageName(now))
    ensures IsAnyInProgress(images) ==> !Decide(now, policy, images).Create?
  {
  }

  /** A server without images of the tool's own gets one. */
  lemma EmptyListCreates(now: DateTime, policy: Policy)
    requires Valid(now)
    ensures Decide(now, policy, []) == Create(ImageName(now))
  {
  }

  /** A save at 100 percent never counts as timed out, however old. */
  lemma CompletedSaveNeverTimesOut(now: DateTime, timeoutSeconds: int, images: seq<ImageData>)
    requires forall i :: 0 <= i < |images| && Saving(images[i]) ==> images[i].progress >= 100
    ensures !IsTimedOut(now, timeoutSeconds, images)
  {
  }

  /**
   * Deletion happens only beside a fresh image, and when every image was
   * updated no earlier than created, that fresh image is never among the
   * deleted ones: a pass never deletes the last fresh image.
   */
  lemma DeleteSparesAFreshImage(now: DateTime, policy: Policy, images: seq<ImageData>)
    requires Valid(now)
    requires forall i :: 0 <= i < |images| ==> images[i].created <= images[i].updated
    requires Decide(now, policy, images).Delete?
    ensures !policy.force
    ensures exists i :: 0 <= i < |images| && Active(images[i])
                        && Elapsed(now, images[i].created) < Window(policy.retainImageSeconds)
                        && images[i] !in Decide(now, policy, images).images
  {
    var i :| 0 <= i < |images| && Active(images[i])
             && Elapsed(now, images[i].created) < Window(policy.retainImageSeconds);
    var doomed := Decide(now, policy, images).images;
    assert Elapsed(now, images[i].updated) <= Elapsed(now, images[i].created);
  }

  /** `timedelta(seconds=server_data.save_timeout_seconds)`, which `_is_timed_out` builds first. */
  function TimeoutDelta(server: ServerData): Result<int, Error> {
    var seconds :- SaveTimeoutSeconds(server);
    Timedelta(seconds)
  }

  /** `timedelta(seconds=server_data.retain_image_seconds)`, which `_needs_image` builds first. */
  function RetainDelta(server: ServerData): Result<int, Error> {
    var seconds :- RetainImageSeconds(server);
    Timedelta(seconds)
  }

  /**
   * `process_server` on the images the provider lists: filter them, then read
   * the save timeout only when something is saving and the retention period
   * only when not forced, as `process_server` does. A setting that is read and
   * cannot be turned into a timedelta ends the pass with its error.
   */
  function ProcessServer(now: DateTime, server: ServerData, listed: seq<ImageData>): (r: Result<Action, Error>)
    requires Valid(now)
    ensures var images := OurImages(listed);
            IsAnyInProgress(images) ==>
              && (r.Failure? <==> TimeoutDelta(server).Failure?)
              && (r.Failure? ==> r.error == TimeoutDelta(server).error)
              && (r.Success? ==> r.value.Wait? || r.value.TimedOut?)
    ensures var images := OurImages(listed);
            server.force && !IsAnyInProgress(images) ==> r == Success(Create(ImageName(now)))
    ensures var images := OurImages(listed);
            !server.force && !IsAnyInProgress(images) ==>
              && (r.Failure? <==> RetainDelta(server).Failure?)
              && (r.Failure? ==> r.error == RetainDelta(server).error)
              && (r.Success? ==> r.value.Create? || r.value.Delete?)
  {
    var images := OurImages(listed);
    if IsAnyInProgress(images) then
      var timeout :- TimeoutDelta(server);
      Success(if IsTimedOut(now, timeout, images) then TimedOut else Wait)
    else if server.force then
      Success(Create(ImageName(now)))
    else
      var retain :- RetainDelta(server);
      if NeedsImage(now, false, retain, images) then Success(Create(ImageName(now)))
      else Success(Delete(ExpiredImages(now, false, retain, images)))
  }

  /**
   * When the settings a pass reads are readable, the pass is `Decide` on the
   * server's own images; a setting the pass does not read may be anything.
   */
  lemma ProcessServerAgreesWithDecide(now: DateTime, server: ServerData, listed: seq<ImageData>, policy: Policy)
    requires Valid(now) && policy.force == server.force
    requires IsAnyInProgress(OurImages(listed)) ==> TimeoutDelta(server) == Success(policy.saveTimeoutSeconds)
    requires !IsAnyInProgress(OurImages(listed)) && !server.force
             ==> RetainDelta(server) == Success(policy.retainImageSeconds)
    ensures ProcessServer(now, server, listed) == Success(Decide(now, policy, OurImages(listed)))
  {
  }

  /** A save timeout too large for a timedelta fails the pass whenever something is saving. */
  lemma HugeTimeoutOverflows(now: DateTime, server: ServerData, listed: seq<ImageData>)
    requires Valid(now) && IsAnyInProgress(OurImages(listed))
    requires SaveTimeoutMinutes(server) == Success(Some(2000000000000))
    ensures ProcessServer(now, server, listed).Failure?
    ensures ProcessServer(now, server, listed).error.OverflowError?
  {
    assert SaveTimeoutSeconds(server) == Success(120000000000000);
  }

  // ---------------------------------------------------------------- the identity catalog

  datatype Endpoint = Endpoint(region: string, publicUrl: string)

  /** One entry of the identity response's service catalog. */
  datatype CatalogEntry = CatalogEntry(kind: string, name: string, endpoints: seq<Endpoint>)

  const ComputeKind := "compute"
  const ComputeName := "cloudServersOpenStack"
  const ImageKind := "image"
  const ImagesServiceName := "cloudImages"

  /** The public URL of the first endpoint in the region; a missing region matches nothing. */
  function FirstRegionUrl(endpoints: seq<Endpoint>, region: Option<string>): (r: Option<string>)
    ensures r.None? <==> forall i :: 0 <= i < |endpoints| ==> Some(endpoints[i].region) != region
    ensures r.Some? ==> exists i :: 0 <= i < |endpoints| && Some(endpoints[i].region) == region
                                    && r.value == endpoints[i].publicUrl
                                    && forall j :: 0 <= j < i ==> Some(endpoints[j].region) != region
  {
    if |endpoints| == 0 then None
    else if Some(endpoints[0].region) == region then Some(endpoints[0].publicUrl)
    else
      var rest := FirstRegionUrl(endpoints[1..], region);
      assert forall i :: 1 <= i < |endpoints| ==> endpoints[i] == endpoints[1..][i - 1];
      if rest.Some? then
        var i :| 0 <= i < |endpoints[1..]| && Some(endpoints[1..][i].region) == region
                 && rest.value == endpoints[1..][i].publicUrl
                 && forall j :: 0 <= j < i ==> Some(endpoints[1..][j].region) != region;
        assert Some(endpoints[i + 1].region) == region;
        rest
      else rest
  }

  /** An entry of the right kind and name with an endpoint in the region. */
  predicate Serves(entry: CatalogEntry, kind: string, name: string, region: Option<string>) {
    entry.kind == kind && entry.name == name && FirstRegionUrl(entry.endpoints, region).Some?
  }

  /** `_lookup_public_url`: the entry's URL for the region, or the previous one. */
  function LookupPublicUrl(entry: CatalogEntry, kind: string, name: string, region: Option<string>,
                           previous: Option<string>): (r: Option<string>)
    ensures Serves(entry, kind, name, region) ==> r == FirstRegionUrl(entry.endpoints, region)
    ensures !Serves(entry, kind, name, region) ==> r == previous
  {
    if entry.kind == kind && entry.name == name then
      match FirstRegionUrl(entry.endpoints, region)
      case Some(url) => Some(url)
      case None => previous
    else previous
  }

  /**
   * What the lookup over a catalog resolves to: nothing when no entry serves
   * the region, otherwise the URL of the LAST serving entry.
   */
  predicate ResolvesTo(catalog: seq<CatalogEntry>, kind: string, name: string, region: Option<string>,
                       url: Option<string>) {
    (url.None? <==> forall i :: 0 <= i < |catalog| ==> !Serves(catalog[i], kind, name, region))
    && (url.Some? ==> exists i :: 0 <= i < |catalog| && Serves(catalog[i], kind, name, region)
                                  && url == FirstRegionUrl(catalog[i].endpoints, region)
                                  && forall j :: i < j < |catalog| ==> !Serves(catalog[j], kind, name, region))
  }

  /** The resolution is determined by the catalog: at most one URL resolves. */
  lemma ResolvesToUnique(catalog: seq<CatalogEntry>, kind: string, name: string, region: Option<string>,
                         a: Option<string>, b: Option<string>)
    requires ResolvesTo(catalog, kind, name, region, a) && ResolvesTo(catalog, kind, name, region, b)
    ensures a == b
  {
    if a.Some? && b.Some? {
      var i :| 0 <= i < |catalog| && Serves(catalog[i], kind, name, region)
               && a == FirstRegionUrl(catalog[i].endpoints, region)
               && forall j :: i < j < |catalog| ==> !Serves(catalog[j], kind, name, region);
      var k :| 0 <= k < |catalog| && Serves(catalog[k], kind, name, region)
               && b == FirstRegionUrl(catalog[k].endpoints, region)
               && forall j :: k < j < |catalog| ==> !Serves(catalog[j], kind, name, region);
      assert i == k;
    }
  }

  /** A catalog with a compute entry for ORD and HKG and an image entry for ORD and SYD. */
  const SampleCatalog: seq<CatalogEntry> := [
    CatalogEntry(ComputeKind, ComputeName, [Endpoint("ORD", "servers-ord"), Endpoint("HKG", "servers-hkg")]),
    CatalogEntry(ImageKind, ImagesServiceName, [Endpoint("ORD", "images-ord"), Endpoint("SYD", "images-syd")])
  ]

  /** The compute entry serves exactly ORD and HKG, the image entry exactly ORD and SYD. */
  lemma SampleCatalogServes(region: string)
    ensures Serves(SampleCatalog[0], ComputeKind, ComputeName, Some(region)) <==> region in {"ORD", "HKG"}
    ensures Serves(SampleCatalog[1], ImageKind, ImagesServiceName, Some(region)) <==> region in {"ORD", "SYD"}
    ensures !Serves(SampleCatalog[0], ImageKind, ImagesServiceName, Some(region))
    ensures !Serves(SampleCatalog[1], ComputeKind, ComputeName, Some(region))
  {
    var compute, image := SampleCatalog[0].endpoints, SampleCatalog[1].endpoints;
    assert compute[1..][1..] == [] && image[1..][1..] == [];
  }

  /** The sample catalog in ORD: both URLs resolve. */
  lemma SampleCatalogOrd()
    ensures ResolvesTo(SampleCatalog, ComputeKind, ComputeName, Some("ORD"), Some("servers-ord"))
    ensures ResolvesTo(SampleCatalog, ImageKind, ImagesServiceName, Some("ORD"), Some("images-ord"))
  {
    SampleCatalogServes("ORD");
  }

  /** The sample catalog in DFW: neither URL resolves. */
  lemma SampleCatalogDfw()
    ensures ResolvesTo(SampleCatalog, ComputeKind, ComputeName, Some("DFW"), None)
    ensures ResolvesTo(SampleCatalog, ImageKind, ImagesServiceName, Some("DFW"), None)
  {
    SampleCatalogServes("DFW");
  }

  /** The sample catalog in SYD: only the images URL resolves. */
  lemma SampleCatalogSyd()
    ensures ResolvesTo(SampleCatalog, ComputeKind, ComputeName, Some("SYD"), None)
    ensures ResolvesTo(SampleCatalog, ImageKind, ImagesServiceName, Some("SYD"), Some("images-syd"))
  {
    SampleCatalogServes("SYD");
  }

  /** The sample catalog in HKG: only the servers URL resolves. */
  lemma SampleCatalogHkg()
    ensures ResolvesTo(SampleCatalog, ComputeKind, ComputeName, Some("HKG"), Some("servers-hkg"))
    ensures ResolvesTo(SampleCatalog, ImageKind, ImagesServiceName, Some("HKG"), None)
  {
    SampleCatalogServes("HKG");
  }

  /** `parse_rax_id_data`: the servers URL and the images URL for the region, resolved independently. */
  method ParseRaxIdData(catalog: seq<CatalogEntry>, region: Option<string>)
    returns (serversUrl: Option<string>, imagesUrl: Option<string>)
    ensures ResolvesTo(catalog, ComputeKind, ComputeName, region, serversUrl)
    ensures ResolvesTo(catalog, ImageKind, ImagesServiceName, region, imagesUrl)
  {
    serversUrl, imagesUrl := None, None;
    var k := 0;
    while k < |catalog|
      invariant 0 <= k <= |catalog|
      invariant ResolvesTo(catalog[..k], ComputeKind, ComputeName, region, serversUrl)
      invariant ResolvesTo(catalog[..k], ImageKind, ImagesServiceName, region, imagesUrl)
    {
      ghost var old_servers, old_images := serversUrl, imagesUrl;
      serversUrl := LookupPublicUrl(catalog[k], ComputeKind, ComputeName, region, serversUrl);
      imagesUrl := LookupPublicUrl(catalog[k], ImageKind, ImagesServiceName, region, imagesUrl);
      ResolvesStep(catalog, k, ComputeKind, ComputeName, region, old_servers);
      ResolvesStep(catalog, k, ImageKind, ImagesServiceName, region, old_images);
      k := k + 1;
    }
    assert catalog[..k] == catalog;
  }

  /** One more catalog entry: the lookup either takes the entry's URL or keeps the previous one. */
  lemma ResolvesStep(catalog: seq<CatalogEntry>, k: nat, kind: string, name: string, region: Option<string>,
                     url: Option<string>)
    requires k < |catalog|
    requires ResolvesTo(catalog[..k], kind, name, region, url)
    ensures ResolvesTo(catalog[..k + 1], kind, name, region, LookupPublicUrl(catalog[k], kind, name, region, url))
  {
    var p := catalog[..k + 1];
    assert p[..k] == catalog[..k] && p[k] == catalog[k];
    if Serves(catalog[k], kind, name, region) {
      ResolvesTaken(p, kind, name, region);
    } else {
      ResolvesKept(p, kind, name, region, url);
    }
  }

  /** A last entry that serves the region decides the result. */
  lemma ResolvesTaken(p: seq<CatalogEntry>, kind: string, name: string, region: Option<string>)
    requires |p| > 0 && Serves(p[|p| - 1], kind, name, region)
    ensures ResolvesTo(p, kind, name, region, FirstRegionUrl(p[|p| - 1].endpoints, region))
  {
  }

  /** A last entry that does not serve the region leaves the result of the others. */
  lemma ResolvesKept(p: seq<CatalogEntry>, kind: string, name: string, region: Option<string>, url: Option<string>)
    requires |p| > 0 && !Serves(p[|p| - 1], kind, name, region)
    requires ResolvesTo(p[..|p| - 1], kind, name, region, url)
    ensures ResolvesTo(p, kind, name, region, url)
  {
    var q := p[..|p| - 1];
    assert forall i :: 0 <= i < |q| ==> p[i] == q[i];
    if url.None? {
      forall i | 0 <= i < |p|
        ensures !Serves(p[i], kind, name, region)
      {
        if i < |q| { assert p[i] == q[i]; }
      }
    } else {
      KeptWitness(p, q, kind, name, region, url);
    }
  }

  /** The entry that decided the result of the others still decides it. */
  lemma KeptWitness(p: seq<CatalogEntry>, q: seq<CatalogEntry>, kind: string, name: string,
                    region: Option<string>, url: Option<string>)
    requires |p| > 0 && q == p[..|p| - 1] && !Serves(p[|p| - 1], kind, name, region)
    requires url.Some? && ResolvesTo(q, kind, name, region, url)
    ensures ResolvesTo(p, kind, name, region, url)
  {
    var i :| 0 <= i < |q| && Serves(q[i], kind, name, region)
             && url == FirstRegionUrl(q[i].endpoints, region)
             && forall j :: i < j < |q| ==> !Serves(q[j], kind, name, region);
    assert p[i] == q[i];
    forall j | i < j < |p| ensures !Serves(p[j], kind, name, region) {
      if j < |q| { assert p[j] == q[j]; }
    }
  }

  // ---------------------------------------------------------------- server lookup

  /** One server of the provider's server listing. */
  datatype ListedServer = ListedServer(id: string, name: string)

  /**
   * The loop of `get_server_id`: the id of the first listed server whose
   * lower-cased name equals the configured name, which is compared as is.
   */
  function FindServerId(listed: seq<ListedServer>, name: string): (r: Option<string>)
    ensures r.None? <==> forall i :: 0 <= i < |listed| ==> Lower(listed[i].name) != name
    ensures r.Some? ==> exists i :: 0 <= i < |listed| && Lower(listed[i].name) == name && r.value == listed[i].id
                                    && forall j :: 0 <= j < i ==> Lower(listed[j].name) != name
  {
    if |listed| == 0 then None
    else if Lower(listed[0].name) == name then Some(listed[0].id)
    else
      var rest := FindServerId(listed[1..], name);
      assert forall i :: 1 <= i < |listed| ==> listed[i] == listed[1..][i - 1];
      if rest.Some? then
        var i :| 0 <= i < |listed[1..]| && Lower(listed[1..][i].name) == name && rest.value == listed[1..][i].id
                 && forall j :: 0 <= j < i ==> Lower(listed[1..][j].name) != name;
        assert Lower(listed[i + 1].name) == name;
        rest
      else rest
  }

  /** Only the listed name is lower-cased: a configured name with an upper-case letter never matches. */
  lemma UpperCaseNameNeverFound(listed: seq<ListedServer>, name: string, k: nat)
    requires k < |name| && IsUpper(name[k])
    ensures FindServerId(listed, name) == None
  {
  }
}
