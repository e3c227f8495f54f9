/**
 * `internal/resource/k8s/deployment_finder.go`: Kubernetes deployments by
 * name (one Get per name in namespace "") or by label (one List with a
 * selector built from the tag filter).
 */
module GoDeploymentFinder {
  import opened Model
  import opened Seqs
  import GoResource
  import opened GoDeployments
  import Strings

  /** One `LabelSelectorRequirement`; the finder only ever builds `In` requirements. */
  datatype Requirement = Requirement(key: string, operator: string, values: seq<string>)

  const OpIn := "In"

  /** A `metaV1.LabelSelector` before `FormatLabelSelector` turns it into text. */
  datatype Selector = Selector(matchLabels: map<string, string>, matchExpressions: seq<Requirement>)

  /** `Deployments("").List(selector)`: the deployments it selects, or an error. */
  type ListApi = Selector -> Lookup<seq<Deployment>>

  /** The keys of a Go map listed in its iteration order are distinct. */
  predicate DistinctKeys(tags: seq<Tag>) {
    forall i, j :: 0 <= i < j < |tags| ==> tags[i].key != tags[j].key
  }

  /** The match labels `labelSelector` collects: every key with exactly one value. */
  function MatchLabels(tags: seq<Tag>): map<string, string>
    decreases |tags|
  {
    if tags == [] then map[]
    else
      var t := tags[|tags| - 1];
      var m := MatchLabels(tags[..|tags| - 1]);
      if |t.values| == 1 then m[t.key := t.values[0]] else m
  }

  /** The keys of the match labels are exactly the tag keys with one value. */
  lemma {:induction false} MatchLabelsKeys(tags: seq<Tag>, k: string)
    ensures k in MatchLabels(tags) <==> exists i :: 0 <= i < |tags| && tags[i].key == k && |tags[i].values| == 1
    decreases |tags|
  {
    if tags != [] {
      var init := tags[..|tags| - 1];
      MatchLabelsKeys(init, k);
      assert forall i :: 0 <= i < |init| ==> init[i] == tags[i];
    }
  }

  /** The `In` requirements `labelSelector` collects: one per key whose value count is not one, in order. */
  function Expressions(tags: seq<Tag>): seq<Requirement>
    decreases |tags|
  {
    if tags == [] then []
    else
      var t := tags[|tags| - 1];
      var r := Expressions(tags[..|tags| - 1]);
      if |t.values| == 1 then r else r + [Requirement(t.key, OpIn, t.values)]
  }

  /** The requirements are exactly the tags whose value count is not one, each with all its values. */
  lemma {:induction false} ExpressionsMembers(tags: seq<Tag>, x: Requirement)
    ensures x in Expressions(tags) <==>
      exists i :: 0 <= i < |tags| && |tags[i].values| != 1 && x == Requirement(tags[i].key, OpIn, tags[i].values)
    decreases |tags|
  {
    if tags != [] {
      var init := tags[..|tags| - 1];
      ExpressionsMembers(init, x);
      assert forall i :: 0 <= i < |init| ==> init[i] == tags[i];
    }
  }

  /** `labelSelector`, up to the formatting of the selector as text. */
  method LabelSelector(tags: seq<Tag>) returns (ls: Selector)
    ensures ls == Selector(MatchLabels(tags), Expressions(tags))
  {
    ls := Selector(map[], []);
    for i := 0 to |tags|
      invariant ls == Selector(MatchLabels(tags[..i]), Expressions(tags[..i]))
    {
      assert tags[..i + 1][..i] == tags[..i];
      var t := tags[i];
      if |t.values| == 1 {
        ls := ls.(matchLabels := ls.matchLabels[t.key := t.values[0]]);
        continue;
      }
      ls := ls.(matchExpressions := ls.matchExpressions + [Requirement(t.key, OpIn, t.values)]);
    }
    assert tags[..|tags|] == tags;
  }

  /**
   * Each key of the tag filter lands in exactly one half of the selector: a
   * single-valued key becomes the match label `key=value`, any other key an
   * `In` requirement with all its values.
   */
  lemma SelectorPartition(tags: seq<Tag>, i: int)
    requires DistinctKeys(tags) && 0 <= i < |tags|
    ensures tags[i].key in MatchLabels(tags) <==> |tags[i].values| == 1
    ensures |tags[i].values| == 1 ==> MatchLabels(tags)[tags[i].key] == tags[i].values[0]
    ensures (exists x :: x in Expressions(tags) && x.key == tags[i].key) <==> |tags[i].values| != 1
  {
    MatchLabelsKeys(tags, tags[i].key);
    if |tags[i].values| == 1 {
      MatchLabelsValue(tags, i);
      forall x | x in Expressions(tags)
        ensures x.key != tags[i].key
      {
        ExpressionsMembers(tags, x);
      }
    } else {
      ExpressionsMembers(tags, Requirement(tags[i].key, OpIn, tags[i].values));
    }
  }

  lemma {:induction false} MatchLabelsValue(tags: seq<Tag>, i: int)
    requires DistinctKeys(tags) && 0 <= i < |tags| && |tags[i].values| == 1
    ensures tags[i].key in MatchLabels(tags) && MatchLabels(tags)[tags[i].key] == tags[i].values[0]
  {
    var n := |tags| - 1;
    if i < n {
      assert tags[..n][i] == tags[i];
      MatchLabelsValue(tags[..n], i);
      assert tags[n].key != tags[i].key;
    }
  }

  /** The Resource a found deployment gives in `findByName`. */
  function Named(get: GetApi, name: string): Resource
    requires get("", name).Found?
  {
    Resource(DeploymentKind, name, ContainerVersion(get("", name).value.containers, name))
  }

  /**
   * `findByName` without its pre-sized output: the first lookup error ends
   * the search, an error of another type (`log.Fatal`) the process; found
   * names give a Resource each, in order.
   */
  function ByName(names: seq<string>, get: GetApi): Outcome<seq<Resource>> {
    if names == [] then Ok([])
    else
      var prev := ByName(names[..|names| - 1], get);
      var v := names[|names| - 1];
      if !prev.Ok? then prev
      else
        match get("", v)
        case Found(_) => Ok(prev.value + [Named(get, v)])
        case NotFound => prev
        case ApiError => Error
        case OtherError => Fatal
  }

  /** `findByName` as written: `out` starts with `len(names)` zero Resources and the found ones are appended. */
  function ByNameAsWritten(names: seq<string>, get: GetApi): Outcome<seq<Resource>> {
    var r := ByName(names, get);
    if r.Ok? then Ok(Zeros(|names|) + r.value) else r
  }

  /** `make([]resource.Resource, n)`. */
  function Zeros(n: nat): (z: seq<Resource>)
    ensures |z| == n && forall x :: x in z ==> x == Resource("", "", "")
  {
    seq(n, _ => Resource("", "", ""))
  }

  /** The lookup of `name` is found or not found. */
  function Settled(get: GetApi): string -> bool {
    name => get("", name).Found? || get("", name).NotFound?
  }

  function IsFound(get: GetApi): string -> bool {
    name => get("", name).Found?
  }

  /** The Resources of found deployments, in order. */
  function FoundResources(get: GetApi, names: seq<string>): (r: seq<Resource>)
    requires forall n :: n in names ==> get("", n).Found?
    ensures |r| == |names| && forall i :: 0 <= i < |names| ==> r[i] == Named(get, names[i])
  {
    seq(|names|, i requires 0 <= i < |names| => Named(get, names[i]))
  }

  /**
   * The search succeeds exactly when every lookup is found or not found, and
   * then reports the found names in input order; otherwise the first failing
   * lookup decides between an error and the end of the process.
   */
  lemma {:induction false} ByNameMeaning(names: seq<string>, get: GetApi)
    ensures ByName(names, get).Ok? <==> forall k :: 0 <= k < |names| ==> Settled(get)(names[k])
    ensures ByName(names, get).Ok? ==> ByName(names, get).value == FoundResources(get, Filter(names, IsFound(get)))
  {
    if names != [] {
      var n := |names| - 1;
      var init := names[..n];
      ByNameMeaning(init, get);
      assert forall k :: 0 <= k < n ==> init[k] == names[k];
      var prev := ByName(init, get);
      if prev.Ok? && Settled(get)(names[n]) {
        var kept := Filter(init, IsFound(get));
        assert Filter(names, IsFound(get)) == kept + (if IsFound(get)(names[n]) then [names[n]] else []);
      }
    }
  }

  /** The first lookup that is neither found nor not found decides the outcome. */
  lemma {:induction false} FirstFailureDecides(names: seq<string>, get: GetApi, k: int)
    requires 0 <= k < |names| && !Settled(get)(names[k])
    requires forall j :: 0 <= j < k ==> Settled(get)(names[j])
    ensures get("", names[k]).ApiError? ==> ByName(names, get) == Error
    ensures get("", names[k]).OtherError? ==> ByName(names, get) == Fatal
  {
    var n := |names| - 1;
    if k < n {
      assert forall j :: 0 <= j <= k ==> names[..n][j] == names[j];
      FirstFailureDecides(names[..n], get, k);
    } else {
      ByNameMeaning(names[..n], get);
      assert forall j :: 0 <= j < n ==> names[..n][j] == names[j];
    }
  }

  /** The loop of `findByName` on `out`, from its initial contents `start`. */
  method LookupAll(names: seq<string>, get: GetApi, start: seq<Resource>) returns (r: Outcome<seq<Resource>>)
    ensures ByName(names, get).Ok? ==> r == Ok(start + ByName(names, get).value)
    ensures !ByName(names, get).Ok? ==> r == ByName(names, get)
  {
    var out := start;
    for i := 0 to |names|
      invariant ByName(names[..i], get).Ok?
      invariant out == start + ByName(names[..i], get).value
    {
      assert names[..i + 1][..i] == names[..i];
      var v := names[i];
      var d := get("", v);
      if !d.Found? {
        if d.OtherError? {
          RestFails(names, get, i + 1);
          return Fatal;
        }
        if !d.NotFound? {
          RestFails(names, get, i + 1);
          return Error;
        }
        continue;
      }
      var version := VersionOfNamed(d.value.containers, v);
      out := out + [Resource(DeploymentKind, v, version)];
    }
    assert names[..|names|] == names;
    return Ok(out);
  }

  /** Once a prefix fails, the whole search fails the same way. */
  lemma {:induction false} RestFails(names: seq<string>, get: GetApi, i: int)
    requires 0 <= i <= |names| && !ByName(names[..i], get).Ok?
    ensures ByName(names, get) == ByName(names[..i], get)
    decreases |names| - i
  {
    if i < |names| {
      assert names[..i + 1][..i] == names[..i];
      RestFails(names, get, i + 1);
    } else {
      assert names[..i] == names;
    }
  }

  /** `findByName` as written, `out := make([]resource.Resource, len(names))` included. */
  method FindByNameAsWritten(names: seq<string>, get: GetApi) returns (r: Outcome<seq<Resource>>)
    ensures r == ByNameAsWritten(names, get)
  {
    var out := seq(|names|, _ => Resource("", "", ""));
    r := LookupAll(names, get, out);
  }

  /** `findByName` with an empty `out`, as the rest of the function evidently intends. */
  method FindByName(names: seq<string>, get: GetApi) returns (r: Outcome<seq<Resource>>)
    ensures r == ByName(names, get)
  {
    r := LookupAll(names, get, []);
    if r.Ok? {
      assert [] + ByName(names, get).value == ByName(names, get).value;
    }
  }

  /**
   * As written, a successful search begins with one zero Resource per
   * requested name: a name that does not exist still yields a row with an
   * empty type, name and version.
   */
  lemma PreSizedOutputHasBlankRows(get: GetApi)
    requires get("", "web") == NotFound
    ensures ByNameAsWritten(["web"], get) == Ok([Resource("", "", "")])
    ensures ByName(["web"], get) == Ok([])
  {
    assert ["web"][..0] == [];
    assert ByName(["web"], get) == Ok([]);
    var z := Zeros(1);
    assert z[0] == Resource("", "", "");
    assert z + [] == [Resource("", "", "")];
  }

  /** As written, the real results follow `|names|` blank entries. */
  lemma AsWrittenShiftsResults(names: seq<string>, get: GetApi)
    requires ByName(names, get).Ok?
    ensures ByNameAsWritten(names, get).Ok?
    ensures |ByNameAsWritten(names, get).value| == |names| + |ByName(names, get).value|
    ensures ByNameAsWritten(names, get).value[..|names|] == Zeros(|names|)
    ensures ByNameAsWritten(names, get).value[|names|..] == ByName(names, get).value
  {
  }

  /** The Resources `findByLabel` emits for one deployment: one per container not excluded by its own name. */
  function ContainerRows(name: string, cs: seq<Container>, excluded: seq<GoResource.Regexp>, re: RegexEngine)
    : seq<Resource>
    decreases |cs|
  {
    if cs == [] then []
    else
      var c := cs[|cs| - 1];
      ContainerRows(name, cs[..|cs| - 1], excluded, re)
      + (if GoResource.IsExcluded(c.name, excluded, re) then [] else [Resource(DeploymentKind, name, ExtractImageVersion(c.image))])
  }

  /** At most one Resource per container, each named after the deployment and coming from a container not excluded. */
  lemma {:induction false} ContainerRowsSound(name: string, cs: seq<Container>, excluded: seq<GoResource.Regexp>, re: RegexEngine)
    ensures |ContainerRows(name, cs, excluded, re)| <= |cs|
    ensures forall x :: x in ContainerRows(name, cs, excluded, re) ==>
      && x.kind == DeploymentKind && x.name == name
      && exists c :: c in cs && !GoResource.IsExcluded(c.name, excluded, re) && x.version == ExtractImageVersion(c.image)
    decreases |cs|
  {
    if cs != [] {
      var init := cs[..|cs| - 1];
      ContainerRowsSound(name, init, excluded, re);
      assert forall c :: c in init ==> c in cs;
      assert cs[|cs| - 1] in cs;
    }
  }

  /** Some container of `d` that is not excluded by its name carries an image with version `version`. */
  predicate Emits(d: Deployment, version: string, excluded: seq<GoResource.Regexp>, re: RegexEngine) {
    exists c :: c in d.containers && !GoResource.IsExcluded(c.name, excluded, re) && version == ExtractImageVersion(c.image)
  }

  /** The Resources of all listed deployments, deployment by deployment. */
  function Rows(ds: seq<Deployment>, excluded: seq<GoResource.Regexp>, re: RegexEngine): seq<Resource>
    decreases |ds|
  {
    if ds == [] then []
    else
      var d := ds[|ds| - 1];
      Rows(ds[..|ds| - 1], excluded, re) + ContainerRows(d.name, d.containers, excluded, re)
  }

  /** Every Resource names a listed deployment and comes from one of its containers that is not excluded. */
  lemma {:induction false} RowsSound(ds: seq<Deployment>, excluded: seq<GoResource.Regexp>, re: RegexEngine)
    ensures forall x :: x in Rows(ds, excluded, re) ==>
      && x.kind == DeploymentKind
      && exists d :: d in ds && x.name == d.name && Emits(d, x.version, excluded, re)
    decreases |ds|
  {
    if ds != [] {
      var init := ds[..|ds| - 1];
      var d := ds[|ds| - 1];
      RowsSound(init, excluded, re);
      ContainerRowsSound(d.name, d.containers, excluded, re);
      assert forall e :: e in init ==> e in ds;
      assert d in ds;
    }
  }

  /** Every container not excluded by its name gives a Resource named after its deployment. */
  lemma {:induction false} ContainerRowsComplete(name: string, cs: seq<Container>, excluded: seq<GoResource.Regexp>, re: RegexEngine, c: Container)
    requires c in cs && !GoResource.IsExcluded(c.name, excluded, re)
    ensures Resource(DeploymentKind, name, ExtractImageVersion(c.image)) in ContainerRows(name, cs, excluded, re)
  {
    var n := |cs| - 1;
    if c != cs[n] {
      assert cs == cs[..n] + [cs[n]];
      ContainerRowsComplete(name, cs[..n], excluded, re, c);
    }
  }

  lemma {:induction false} RowsComplete(ds: seq<Deployment>, excluded: seq<GoResource.Regexp>, re: RegexEngine, d: Deployment, c: Container)
    requires d in ds && c in d.containers && !GoResource.IsExcluded(c.name, excluded, re)
    ensures Resource(DeploymentKind, d.name, ExtractImageVersion(c.image)) in Rows(ds, excluded, re)
  {
    var n := |ds| - 1;
    if d == ds[n] {
      ContainerRowsComplete(d.name, d.containers, excluded, re, c);
    } else {
      assert ds == ds[..n] + [ds[n]];
      RowsComplete(ds[..n], excluded, re, d, c);
    }
  }

  /**
   * What `findByLabel` returns: an error when a pattern does not compile
   * (before any query) or when the list call fails; otherwise the rows.
   */
  function LabelLookup(tags: seq<Tag>, exclude: seq<string>, re: RegexEngine, list: ListApi): Outcome<seq<Resource>> {
    if !(forall k :: 0 <= k < |exclude| ==> re.compiles(exclude[k])) then Error
    else
      var listed := list(Selector(MatchLabels(tags), Expressions(tags)));
      if !listed.Found? then Error
      else Ok(Rows(listed.value, GoResource.Regexps(exclude), re))
  }

  /** `findByLabel`: a nested loop over the listed deployments and their containers. */
  method FindByLabel(tags: seq<Tag>, exclude: seq<string>, re: RegexEngine, list: ListApi) returns (r: Outcome<seq<Resource>>)
    ensures r == LabelLookup(tags, exclude, re, list)
  {
    var excluded := GoResource.ExcludedAsRegexp(exclude, re);
    if !excluded.Ok? {
      return Error;
    }
    assert excluded.value == GoResource.Regexps(exclude);
    var selector := LabelSelector(tags);
    var listed := list(selector);
    if !listed.Found? {
      return Error;
    }
    var ds := listed.value;
    var out: seq<Resource> := [];
    for i := 0 to |ds|
      invariant out == Rows(ds[..i], excluded.value, re)
    {
      var v := ds[i];
      var cs := v.containers;
      ghost var before := out;
      for j := 0 to |cs|
        invariant out == before + ContainerRows(v.name, cs[..j], excluded.value, re)
      {
        ContainerRowsStep(v.name, cs, j, excluded.value, re);
        if GoResource.IsExcluded(cs[j].name, excluded.value, re) {
          continue;
        }
        out := out + [Resource(DeploymentKind, v.name, ExtractImageVersion(cs[j].image))];
      }
      RowsStep(ds, i, excluded.value, re);
    }
    assert ds[..|ds|] == ds;
    return Ok(out);
  }

  lemma ContainerRowsStep(name: string, cs: seq<Container>, j: nat, excluded: seq<GoResource.Regexp>, re: RegexEngine)
    requires j < |cs|
    ensures ContainerRows(name, cs[..j + 1], excluded, re) == ContainerRows(name, cs[..j], excluded, re)
      + (if GoResource.IsExcluded(cs[j].name, excluded, re) then [] else [Resource(DeploymentKind, name, ExtractImageVersion(cs[j].image))])
  {
    assert cs[..j + 1][..j] == cs[..j];
  }

  lemma RowsStep(ds: seq<Deployment>, i: nat, excluded: seq<GoResource.Regexp>, re: RegexEngine)
    requires i < |ds|
    ensures Rows(ds[..i + 1], excluded, re) == Rows(ds[..i], excluded, re) + ContainerRows(ds[i].name, ds[i].containers, excluded, re)
    ensures ContainerRows(ds[i].name, ds[i].containers[..|ds[i].containers|], excluded, re) == ContainerRows(ds[i].name, ds[i].containers, excluded, re)
  {
    assert ds[..i + 1][..i] == ds[..i];
    assert ds[i].containers[..|ds[i].containers|] == ds[i].containers;
  }

  /** What `FindResources` returns: a non-empty include list is looked up by name, otherwise by label. */
  function Found(config: GoResource.Config, re: RegexEngine, get: GetApi, list: ListApi): Outcome<seq<Resource>> {
    if |config.includes| > 0 then ByNameAsWritten(config.includes, get)
    else LabelLookup(config.tags, config.exclude, re, list)
  }

  method FindResources(config: GoResource.Config, re: RegexEngine, get: GetApi, list: ListApi) returns (r: Outcome<seq<Resource>>)
    ensures r == Found(config, re, get, list)
  {
    if |config.includes| > 0 {
      r := FindByNameAsWritten(config.includes, get);
      return;
    }
    r := FindByLabel(config.tags, config.exclude, re, list);
  }

  /**
   * Exclusion looks at container names: pattern "web" leaves deployment
   * "web" in when its container is "app", and pattern "side" drops the
   * "sidecar" container of deployment "web".
   */
  lemma ExclusionTestsContainerNames(image: string)
    ensures |Rows([Deployment("web", [Container("app", image)])], [GoResource.Regexp("web")], GoResource.Literal)| == 1
    ensures Rows([Deployment("web", [Container("sidecar", image)])], [GoResource.Regexp("side")], GoResource.Literal) == []
  {
    var app := [Container("app", image)];
    var side := [Container("sidecar", image)];
    assert app[..0] == [] && side[..0] == [];
    assert !GoResource.IsExcluded("app", [GoResource.Regexp("web")], GoResource.Literal) by {
      assert !Strings.Contains("app", "web") by {
        forall i | 0 <= i <= 3 ensures !("web" <= "app"[i..]) {
          assert "app"[i..] == [] || "app"[i..][0] != 'w';
        }
      }
    }
    assert GoResource.IsExcluded("sidecar", [GoResource.Regexp("side")], GoResource.Literal) by {
      assert "side" <= "sidecar"[0..];
    }
    var web, sidecar := [Deployment("web", app)], [Deployment("web", side)];
    assert web[..0] == [] && sidecar[..0] == [];
    assert ContainerRows("web", app, [GoResource.Regexp("web")], GoResource.Literal)
      == [Resource(DeploymentKind, "web", ExtractImageVersion(image))];
    assert ContainerRows("web", side, [GoResource.Regexp("side")], GoResource.Literal) == [];
  }
}
