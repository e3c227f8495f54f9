/**
 * `DeploymentFinder` (Java): Kubernetes Deployments looked up by name or
 * listed by label selector, each turned into a Resource whose version comes
 * from a container image. The cluster API is a pair of given functions.
 */
module DeploymentFinder {
  import opened Model
  import opened Strings
  import opened Seqs
  import ResourceFinder
  import ImageVersion

  /** The parts of a `V1Deployment` the finder reads; every nullable link is an Option. */
  datatype Container = Container(name: Option<string>, image: Option<string>)

  datatype PodSpec = PodSpec(containers: Option<seq<Container>>)

  datatype PodTemplate = PodTemplate(spec: Option<PodSpec>)

  datatype DeploymentSpec = DeploymentSpec(template: Option<PodTemplate>)

  datatype V1Deployment = V1Deployment(name: string, spec: Option<DeploymentSpec>)

  /** `readNamespacedDeployment(name, namespace)`: one deployment or an error. */
  type ReadApi = (string, string) -> Lookup<V1Deployment>

  /** `listNamespacedDeployment(namespace, labelSelector)`: the (nullable) item list or an error. */
  type ListApi = (string, string) -> Lookup<Option<seq<V1Deployment>>>

  /** `spec.template.spec.containers`, or None when any link of that chain is null. */
  function ContainersOf(d: V1Deployment): Option<seq<Container>> {
    if d.spec.None? || d.spec.value.template.None? || d.spec.value.template.value.spec.None? then None
    else d.spec.value.template.value.spec.value.containers
  }

  /** A container the first pass accepts: named like the deployment, with an image. */
  predicate Usable(c: Container, name: string) {
    c.name == Some(name) && c.image.Some?
  }

  /** The index of the first usable container, if any. */
  function FirstUsable(cs: seq<Container>, name: string): (r: Option<nat>)
    ensures r.Some? ==>
      && r.value < |cs|
      && Usable(cs[r.value], name)
      && (forall j :: 0 <= j < r.value ==> !Usable(cs[j], name))
    ensures r.None? ==> forall j :: 0 <= j < |cs| ==> !Usable(cs[j], name)
    decreases |cs|
  {
    if cs == [] then None
    else if Usable(cs[0], name) then Some(0)
    else match FirstUsable(cs[1..], name)
      case None => None
      case Some(k) => Some(k + 1)
  }

  /**
   * The image `extractImageVersion` reads: that of the first container named
   * like the deployment and having an image; failing that, the first
   * container's image; none when the container list is missing or empty.
   */
  function SelectedImage(d: V1Deployment, name: string): (r: Option<string>)
    ensures ContainersOf(d).None? ==> r.None?
    ensures ContainersOf(d).Some? ==>
      var cs := ContainersOf(d).value;
      && ((exists k :: 0 <= k < |cs| && Usable(cs[k], name)) ==>
            exists k :: 0 <= k < |cs| && Usable(cs[k], name) && r == cs[k].image &&
              forall j :: 0 <= j < k ==> !Usable(cs[j], name))
      && ((forall k :: 0 <= k < |cs| ==> !Usable(cs[k], name)) ==>
            r == if cs == [] then None else cs[0].image)
  {
    match ContainersOf(d)
    case None => None
    case Some(cs) =>
      match FirstUsable(cs, name)
      case Some(k) => cs[k].image
      case None => if cs == [] then None else cs[0].image
  }

  /**
   * The version `extractImageVersion` reports: that of the first container
   * named like the deployment and having an image; failing that, that of the
   * first container's image; "N/A" when there is neither.
   */
  function ImageVersionOf(d: V1Deployment, name: string): (r: string)
    ensures ContainersOf(d).None? ==> r == NotAvailable
    ensures ContainersOf(d).Some? ==>
      var cs := ContainersOf(d).value;
      forall k :: 0 <= k < |cs| && Usable(cs[k], name) && (forall j :: 0 <= j < k ==> !Usable(cs[j], name)) ==>
        r == ImageVersion.ExtractVersionFromImage(ImageVersion.Java, cs[k].image.value)
    ensures ContainersOf(d).Some? ==>
      var cs := ContainersOf(d).value;
      (forall k :: 0 <= k < |cs| ==> !Usable(cs[k], name)) ==>
        r == if cs == [] || cs[0].image.None? then NotAvailable
             else ImageVersion.ExtractVersionFromImage(ImageVersion.Java, cs[0].image.value)
  {
    match SelectedImage(d, name)
    case None => NotAvailable
    case Some(image) => ImageVersion.ExtractVersionFromImage(ImageVersion.Java, image)
  }

  /**
   * `extractImageVersion`: scans the containers for one named like the
   * deployment and having an image, then falls back to the first container.
   */
  method ExtractImageVersion(d: V1Deployment, name: string) returns (version: string)
    ensures version == ImageVersionOf(d, name)
  {
    if d.spec.None? || d.spec.value.template.None? || d.spec.value.template.value.spec.None? ||
       d.spec.value.template.value.spec.value.containers.None? {
      return NotAvailable;
    }
    var containers := d.spec.value.template.value.spec.value.containers.value;
    for i := 0 to |containers|
      invariant forall j :: 0 <= j < i ==> !Usable(containers[j], name)
    {
      var c := containers[i];
      if c.name == Some(name) && c.image.Some? {
        return ImageVersion.ExtractVersionFromImage(ImageVersion.Java, c.image.value);
      }
    }
    if containers != [] && containers[0].image.Some? {
      return ImageVersion.ExtractVersionFromImage(ImageVersion.Java, containers[0].image.value);
    }
    return NotAvailable;
  }

  /** One selector term: `key=value` for a single value, `key in (v1,...,vn)` otherwise. */
  function Term(t: Tag): string {
    if |t.values| == 1 then t.key + "=" + t.values[0]
    else t.key + " in (" + Join(t.values, ",") + ")"
  }

  /** The label selector for the tag entries, one term per entry in iteration order, joined by ",". */
  function LabelSelector(tags: seq<Tag>): string {
    Join(seq(|tags|, i requires 0 <= i < |tags| => Term(tags[i])), ",")
  }

  /** `buildLabelSelector`: collects one term per tag entry, then joins them. */
  method BuildLabelSelector(tags: seq<Tag>) returns (selector: string)
    ensures selector == LabelSelector(tags)
  {
    var selectors: seq<string> := [];
    for i := 0 to |tags|
      invariant selectors == seq(i, k requires 0 <= k < i => Term(tags[k]))
    {
      var key, values := tags[i].key, tags[i].values;
      if |values| == 1 {
        selectors := selectors + [key + "=" + values[0]];
      } else {
        selectors := selectors + [key + " in (" + Join(values, ",") + ")"];
      }
    }
    selector := Join(selectors, ",");
  }

  /** `namespace != null ? namespace : "default"`. */
  function NamespaceOf(namespace: Option<string>): string {
    match namespace
    case Some(ns) => ns
    case None => "default"
  }

  /** The Resource for a deployment found under `name`. */
  function ToResource(d: V1Deployment, name: string): Resource {
    Resource(DeploymentKind, name, ImageVersionOf(d, name))
  }

  /**
   * Whether `findByName` throws at `name`: the exclusion test throws, or the
   * name is not excluded and the lookup fails with something other than an
   * `ApiException` (those are caught per name).
   */
  function NameThrows(ns: string, exclude: Option<seq<string>>, re: RegexEngine, read: ReadApi): string -> bool {
    name =>
      var ex := ResourceFinder.IsExcluded(name, exclude, re);
      ex.Error? || (ex.Ok? && !ex.value && read(ns, name).OtherError?)
  }

  /** The exclusion test passes `name` without throwing. */
  predicate NotExcluded(name: string, exclude: Option<seq<string>>, re: RegexEngine) {
    var ex := ResourceFinder.IsExcluded(name, exclude, re);
    ex.Ok? && !ex.value
  }

  /** A name `findByName` reports: not excluded, and found. */
  function KeptName(ns: string, exclude: Option<seq<string>>, re: RegexEngine, read: ReadApi): string -> bool {
    name => NotExcluded(name, exclude, re) && read(ns, name).Found?
  }

  /** The Resources of found names, in order. */
  function FoundResources(ns: string, read: ReadApi, names: seq<string>): seq<Resource>
    requires forall n :: n in names ==> read(ns, n).Found?
  {
    seq(|names|, i requires 0 <= i < |names| => ToResource(read(ns, names[i]).value, names[i]))
  }

  /** Found names appended one at a time give their Resources appended one at a time. */
  lemma FoundResourcesAppend(ns: string, read: ReadApi, names: seq<string>, name: string)
    requires forall n :: n in names ==> read(ns, n).Found?
    requires read(ns, name).Found?
    ensures FoundResources(ns, read, names + [name]) ==
      FoundResources(ns, read, names) + [ToResource(read(ns, name).value, name)]
  {
    var ext := names + [name];
    assert forall n :: n in ext ==> n in names || n == name;
  }

  /**
   * What `findByName` gives: an exception when some name throws, otherwise
   * one Resource per kept name, in input order.
   */
  function NameLookup(names: seq<string>, ns: string, exclude: Option<seq<string>>, re: RegexEngine, read: ReadApi): Outcome<seq<Resource>> {
    if AnyOf(names, NameThrows(ns, exclude, re, read)) then Error
    else Ok(FoundResources(ns, read, Filter(names, KeptName(ns, exclude, re, read))))
  }

  /**
   * One iteration of `findByName`: the Resource for `name`, nothing when the
   * name is skipped, or the exception that escapes.
   */
  method LookupName(name: string, ns: string, exclude: Option<seq<string>>, re: RegexEngine, read: ReadApi)
    returns (step: Outcome<Option<Resource>>)
    ensures step.Error? <==> NameThrows(ns, exclude, re, read)(name)
    ensures step.Ok? ==> (step.value.Some? <==> KeptName(ns, exclude, re, read)(name))
    ensures step.Ok? && step.value.Some? ==>
      read(ns, name).Found? && step.value.value == ToResource(read(ns, name).value, name)
    ensures !step.Fatal?
  {
    var excluded := ResourceFinder.IsExcluded(name, exclude, re);
    if excluded.Error? {
      return Error;
    }
    if excluded.Ok? && excluded.value {
      assert !NotExcluded(name, exclude, re);
      return Ok(None);
    }
    assert NotExcluded(name, exclude, re);
    match read(ns, name)
    case Found(d) =>
      var version := ExtractImageVersion(d, name);
      return Ok(Some(Resource(DeploymentKind, name, version)));
    case NotFound =>
      return Ok(None);
    case ApiError =>
      return Ok(None);
    case OtherError =>
      return Error;
  }

  /** `findByName`: each name is skipped when excluded, not found or failing with an `ApiException`. */
  method FindByName(names: seq<string>, namespace: Option<string>, exclude: Option<seq<string>>, re: RegexEngine, read: ReadApi)
    returns (r: Outcome<seq<Resource>>)
    ensures r == NameLookup(names, NamespaceOf(namespace), exclude, re, read)
  {
    var ns := NamespaceOf(namespace);
    var resources: seq<Resource> := [];
    for i := 0 to |names|
      invariant !AnyOf(names[..i], NameThrows(ns, exclude, re, read))
      invariant resources == FoundResources(ns, read, Filter(names[..i], KeptName(ns, exclude, re, read)))
    {
      var step := LookupName(names[i], ns, exclude, re, read);
      if step.Error? {
        ThrowingNameFails(names, i, ns, exclude, re, read);
        return Error;
      }
      NameStep(names, i, ns, exclude, re, read);
      if step.value.Some? {
        resources := resources + [step.value.value];
      }
    }
    assert names[..|names|] == names;
    return Ok(resources);
  }

  /** A name that throws makes the whole lookup throw. */
  lemma ThrowingNameFails(names: seq<string>, i: nat, ns: string, exclude: Option<seq<string>>, re: RegexEngine, read: ReadApi)
    requires i < |names| && NameThrows(ns, exclude, re, read)(names[i])
    ensures NameLookup(names, ns, exclude, re, read) == Error
  {
    AnyOfIff(names, NameThrows(ns, exclude, re, read));
  }

  /** A name that does not throw extends the lookup of the names before it by its own Resource, if kept. */
  lemma NameStep(names: seq<string>, i: nat, ns: string, exclude: Option<seq<string>>, re: RegexEngine, read: ReadApi)
    requires i < |names| && !NameThrows(ns, exclude, re, read)(names[i])
    ensures AnyOf(names[..i + 1], NameThrows(ns, exclude, re, read)) == AnyOf(names[..i], NameThrows(ns, exclude, re, read))
    ensures var keep := KeptName(ns, exclude, re, read);
      FoundResources(ns, read, Filter(names[..i + 1], keep)) ==
        FoundResources(ns, read, Filter(names[..i], keep))
        + (if keep(names[i]) then [ToResource(read(ns, names[i]).value, names[i])] else [])
  {
    var keep := KeptName(ns, exclude, re, read);
    AnyOfPrefixStep(names, i, NameThrows(ns, exclude, re, read));
    FilterPrefixStep(names, i, keep);
    if keep(names[i]) {
      FoundResourcesAppend(ns, read, Filter(names[..i], keep), names[i]);
    }
  }

  /** Whether the exclusion test throws on a listed deployment's name. */
  function ItemThrows(exclude: Option<seq<string>>, re: RegexEngine): V1Deployment -> bool {
    (d: V1Deployment) => ResourceFinder.IsExcluded(d.name, exclude, re).Error?
  }

  /** A listed deployment `findByTags` reports: its name is not excluded. */
  function KeptItem(exclude: Option<seq<string>>, re: RegexEngine): V1Deployment -> bool {
    (d: V1Deployment) => NotExcluded(d.name, exclude, re)
  }

  /** The Resources of listed deployments, each under its own name, in list order. */
  function ListedResources(items: seq<V1Deployment>): seq<Resource> {
    seq(|items|, i requires 0 <= i < |items| => ToResource(items[i], items[i].name))
  }

  /** Kept deployments appended one at a time give their Resources appended one at a time. */
  lemma ListedResourcesAppend(items: seq<V1Deployment>, d: V1Deployment)
    ensures ListedResources(items + [d]) == ListedResources(items) + [ToResource(d, d.name)]
  {
  }

  /** One iteration of the listing loop in `findByTags`. */
  method ListedStep(d: V1Deployment, exclude: Option<seq<string>>, re: RegexEngine) returns (step: Outcome<Option<Resource>>)
    ensures step.Error? <==> ItemThrows(exclude, re)(d)
    ensures step.Ok? ==> (step.value.Some? <==> KeptItem(exclude, re)(d))
    ensures step.Ok? && step.value.Some? ==> step.value.value == ToResource(d, d.name)
    ensures !step.Fatal?
  {
    var name := d.name;
    var excluded := ResourceFinder.IsExcluded(name, exclude, re);
    if excluded.Error? {
      return Error;
    }
    if excluded.Ok? && excluded.value {
      assert !NotExcluded(name, exclude, re);
      return Ok(None);
    }
    assert NotExcluded(name, exclude, re);
    var version := ExtractImageVersion(d, name);
    return Ok(Some(Resource(DeploymentKind, name, version)));
  }

  /**
   * What `findByTags` gives: nothing, without a query, for missing or empty
   * tags; the exception when the list call fails or an exclusion test
   * throws; otherwise one Resource per listed deployment that is not excluded.
   */
  function TagLookup(tags: Option<seq<Tag>>, ns: string, exclude: Option<seq<string>>, re: RegexEngine, list: ListApi): Outcome<seq<Resource>> {
    if tags.None? || tags.value == [] then Ok([])
    else match list(ns, LabelSelector(tags.value))
      case Found(None) => Ok([])
      case Found(Some(items)) => ItemsLookup(items, exclude, re)
      case _ => Error
  }

  /** The listed deployments' outcome: the exception when an exclusion test throws, else the kept ones' Resources. */
  function ItemsLookup(items: seq<V1Deployment>, exclude: Option<seq<string>>, re: RegexEngine): Outcome<seq<Resource>> {
    if AnyOf(items, ItemThrows(exclude, re)) then Error
    else Ok(ListedResources(Filter(items, KeptItem(exclude, re))))
  }

  /** `findByTags`: lists the deployments matching the label selector built from the tags. */
  method FindByTags(tags: Option<seq<Tag>>, namespace: Option<string>, exclude: Option<seq<string>>, re: RegexEngine, list: ListApi)
    returns (r: Outcome<seq<Resource>>)
    ensures r == TagLookup(tags, NamespaceOf(namespace), exclude, re, list)
  {
    if tags.None? || tags.value == [] {
      return Ok([]);
    }
    var selector := BuildLabelSelector(tags.value);
    var ns := NamespaceOf(namespace);
    var listed := list(ns, selector);
    if !listed.Found? {
      return Error;
    }
    if listed.value.None? {
      return Ok([]);
    }
    r := ListItems(listed.value.value, exclude, re);
  }

  /** The loop of `findByTags` over the listed deployments. */
  method ListItems(items: seq<V1Deployment>, exclude: Option<seq<string>>, re: RegexEngine) returns (r: Outcome<seq<Resource>>)
    ensures r == ItemsLookup(items, exclude, re)
  {
    var resources: seq<Resource> := [];
    for i := 0 to |items|
      invariant !AnyOf(items[..i], ItemThrows(exclude, re))
      invariant resources == ListedResources(Filter(items[..i], KeptItem(exclude, re)))
    {
      var step := ListedStep(items[i], exclude, re);
      if step.Error? {
        AnyOfIff(items, ItemThrows(exclude, re));
        return Error;
      }
      ItemStep(items, i, exclude, re);
      if step.value.Some? {
        resources := resources + [step.value.value];
      }
    }
    assert items[..|items|] == items;
    return Ok(resources);
  }

  /** A listed deployment whose exclusion test does not throw adds its Resource when it is kept. */
  lemma ItemStep(items: seq<V1Deployment>, i: nat, exclude: Option<seq<string>>, re: RegexEngine)
    requires i < |items| && !ItemThrows(exclude, re)(items[i])
    ensures AnyOf(items[..i + 1], ItemThrows(exclude, re)) == AnyOf(items[..i], ItemThrows(exclude, re))
    ensures var keep := KeptItem(exclude, re);
      ListedResources(Filter(items[..i + 1], keep)) ==
        ListedResources(Filter(items[..i], keep)) + (if keep(items[i]) then [ToResource(items[i], items[i].name)] else [])
  {
    var keep := KeptItem(exclude, re);
    AnyOfPrefixStep(items, i, ItemThrows(exclude, re));
    FilterPrefixStep(items, i, keep);
    if keep(items[i]) {
      ListedResourcesAppend(Filter(items[..i], keep), items[i]);
    }
  }

  /**
   * What `findResources` completes with: name lookup when the include list
   * is non-empty, label listing otherwise; any exception gives an empty list.
   */
  function Found(config: ResourceConfig, re: RegexEngine, read: ReadApi, list: ListApi): seq<Resource> {
    var ns := NamespaceOf(config.namespace);
    var r := if UsesInclude(config) then NameLookup(config.includes.value, ns, config.exclude, re, read)
             else TagLookup(config.tags, ns, config.exclude, re, list);
    if r.Ok? then r.value else []
  }

  /** `findResources`: chooses the search and turns an escaped exception into an empty list. */
  method FindResources(config: ResourceConfig, re: RegexEngine, read: ReadApi, list: ListApi) returns (resources: seq<Resource>)
    ensures resources == Found(config, re, read, list)
  {
    var r;
    if UsesInclude(config) {
      r := FindByName(config.includes.value, config.namespace, config.exclude, re, read);
    } else {
      r := FindByTags(config.tags, config.namespace, config.exclude, re, list);
    }
    if r.Ok? {
      return r.value;
    }
    return [];
  }

  /** With a non-empty include list the outcome does not depend on the listing call: none is made. */
  lemma IncludeNeverLists(config: ResourceConfig, re: RegexEngine, read: ReadApi, list1: ListApi, list2: ListApi)
    requires UsesInclude(config)
    ensures Found(config, re, read, list1) == Found(config, re, read, list2)
  {
  }

  /** Without an include list, missing or empty tags give no deployments, whatever the cluster holds. */
  lemma NoTagsFindsNothing(config: ResourceConfig, re: RegexEngine, read: ReadApi, list: ListApi)
    requires !UsesInclude(config)
    requires config.tags.None? || config.tags.value == []
    ensures Found(config, re, read, list) == []
  {
  }

  /** A failing list call is logged, rethrown, and turned into an empty result by `findResources`. */
  lemma ListFailureFindsNothing(config: ResourceConfig, re: RegexEngine, read: ReadApi, list: ListApi)
    requires !UsesInclude(config)
    requires config.tags.Some? && config.tags.value != []
    requires !list(NamespaceOf(config.namespace), LabelSelector(config.tags.value)).Found?
    ensures Found(config, re, read, list) == []
  {
  }

  /**
   * Every Resource a name lookup reports is a requested, non-excluded,
   * found deployment, carrying the version of its own image.
   */
  lemma NameLookupReportsRequested(names: seq<string>, ns: string, exclude: Option<seq<string>>, re: RegexEngine, read: ReadApi)
    requires NameLookup(names, ns, exclude, re, read).Ok?
    ensures forall res :: res in NameLookup(names, ns, exclude, re, read).value ==>
      && res.kind == DeploymentKind
      && res.name in names
      && NotExcluded(res.name, exclude, re)
      && read(ns, res.name).Found?
      && res.version == ImageVersionOf(read(ns, res.name).value, res.name)
  {
    var kept := Filter(names, KeptName(ns, exclude, re, read));
    forall res | res in NameLookup(names, ns, exclude, re, read).value
      ensures && res.kind == DeploymentKind
              && res.name in names
              && NotExcluded(res.name, exclude, re)
              && read(ns, res.name).Found?
              && res.version == ImageVersionOf(read(ns, res.name).value, res.name)
    {
      var i :| 0 <= i < |kept| && res == FoundResources(ns, read, kept)[i];
      assert kept[i] in kept;
    }
  }

  /**
   * A name that is not found (404) or whose lookup fails with another
   * `ApiException` is skipped on its own: the lookup goes on past it, and
   * the names before and after it are reported as if it were absent.
   */
  lemma FailedLookupSkipsOnlyThatName(before: seq<string>, name: string, after: seq<string>, ns: string, exclude: Option<seq<string>>, re: RegexEngine, read: ReadApi)
    requires NotExcluded(name, exclude, re)
    requires read(ns, name).NotFound? || read(ns, name).ApiError?
    ensures NameLookup(before + [name] + after, ns, exclude, re, read) == NameLookup(before + after, ns, exclude, re, read)
  {
    assert !NameThrows(ns, exclude, re, read)(name);
    assert !KeptName(ns, exclude, re, read)(name);
    DropRejected(before, name, after, KeptName(ns, exclude, re, read), NameThrows(ns, exclude, re, read));
  }

  /** Two tag entries give `app=web,tier in (front,back)`. */
  lemma LabelSelectorExample(tags: seq<Tag>)
    requires tags == [Tag("app", ["web"]), Tag("tier", ["front", "back"])]
    ensures LabelSelector(tags) == "app=web,tier in (front,back)"
  {
    var terms := seq(|tags|, i requires 0 <= i < |tags| => Term(tags[i]));
    JoinPair("front", "back", ",");
    assert terms[0] == "app" + "=" + "web";
    assert terms[1] == "tier" + " in (" + ("front" + "," + "back") + ")";
    assert terms == [terms[0], terms[1]];
    JoinPair(terms[0], terms[1], ",");
  }

  lemma JoinPair(a: string, b: string, sep: string)
    ensures Join([a, b], sep) == a + sep + b
  {
    assert [a, b][..1] == [a];
  }
}
