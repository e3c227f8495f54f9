/**
 * `internal/resource/k8s/deployments.go`: the image-version reader the Go
 * Kubernetes code shares, and `ListDeployments`, which maps deployment names
 * to the version of their same-named container.
 */
module GoDeployments {
  import opened Model
  import opened Seqs
  import ImageVersion

  /** A pod template container: its name and image reference. */
  datatype Container = Container(name: string, image: string)

  /** An `appsv1.Deployment`, reduced to its name and its pod template's containers. */
  datatype Deployment = Deployment(name: string, containers: seq<Container>)

  /** `k8s.Deployment`: which deployment to read, in which namespace. */
  datatype DeploymentRef = DeploymentRef(name: string, namespace: string)

  /**
   * `Deployments(namespace).Get(name)`: the deployment, a `StatusError` whose
   * reason is NotFound, a `StatusError` with another reason (`ApiError`), or
   * an error of another type (`OtherError`).
   */
  type GetApi = (string, string) -> Lookup<Deployment>

  /** `extractImageVersion`: group 1 of the image pattern under Go's regex engine, or "N/A". */
  function ExtractImageVersion(image: string): string {
    ImageVersion.ExtractVersionFromImage(ImageVersion.Go, image)
  }

  function NamedAs(name: string): Container -> bool {
    (c: Container) => c.name == name
  }

  /** No container after position `i` carries `name`. */
  predicate LastNamed(cs: seq<Container>, i: int, name: string)
    requires 0 <= i < |cs|
  {
    forall j :: i < j < |cs| ==> cs[j].name != name
  }

  /**
   * The version a scan over the containers settles on: each container named
   * `name` overwrites it, so the last one decides; "N/A" when none is named so.
   */
  function ContainerVersion(cs: seq<Container>, name: string): string
    decreases |cs|
  {
    if cs == [] then NotAvailable
    else if cs[|cs| - 1].name == name then ExtractImageVersion(cs[|cs| - 1].image)
    else ContainerVersion(cs[..|cs| - 1], name)
  }

  /** "N/A" when no container carries `name`. */
  lemma {:induction false} ContainerVersionNone(cs: seq<Container>, name: string)
    requires forall i :: 0 <= i < |cs| ==> cs[i].name != name
    ensures ContainerVersion(cs, name) == NotAvailable
    decreases |cs|
  {
    if cs != [] {
      var init := cs[..|cs| - 1];
      assert forall i :: 0 <= i < |init| ==> init[i] == cs[i];
      ContainerVersionNone(init, name);
    }
  }

  /** Otherwise the version of the last container that carries `name`. */
  lemma {:induction false} ContainerVersionIsLast(cs: seq<Container>, name: string, i: int)
    requires 0 <= i < |cs| && cs[i].name == name && LastNamed(cs, i, name)
    ensures ContainerVersion(cs, name) == ExtractImageVersion(cs[i].image)
    decreases |cs|
  {
    var n := |cs| - 1;
    if i < n {
      var init := cs[..n];
      assert cs[n].name != name;
      assert init[i] == cs[i];
      assert forall j :: i < j < n ==> init[j] == cs[j];
      ContainerVersionIsLast(init, name, i);
    }
  }

  /** The container loop of `findByName`: starts at "N/A" and takes every same-named container's version. */
  method VersionOfNamed(cs: seq<Container>, name: string) returns (version: string)
    ensures version == ContainerVersion(cs, name)
  {
    version := NotAvailable;
    for j := 0 to |cs|
      invariant version == ContainerVersion(cs[..j], name)
    {
      ContainerStep(cs, j, name);
      if cs[j].name == name {
        version := ExtractImageVersion(cs[j].image);
      }
    }
    assert cs[..|cs|] == cs;
  }

  /** One more container: it decides the version when it carries `name`, and leaves it alone otherwise. */
  lemma ContainerStep(cs: seq<Container>, j: nat, name: string)
    requires j < |cs|
    ensures AnyOf(cs[..j + 1], NamedAs(name)) == (AnyOf(cs[..j], NamedAs(name)) || cs[j].name == name)
    ensures ContainerVersion(cs[..j + 1], name) ==
      if cs[j].name == name then ExtractImageVersion(cs[j].image) else ContainerVersion(cs[..j], name)
  {
    assert cs[..j + 1][..j] == cs[..j];
  }

  /** The entry a found deployment contributes: one exactly when it has a container of its own name. */
  function Update(m: map<string, string>, name: string, lookup: Lookup<Deployment>): map<string, string> {
    if lookup.Found? && AnyOf(lookup.value.containers, NamedAs(name)) then
      m[name := ContainerVersion(lookup.value.containers, name)]
    else m
  }

  /** The map `ListDeployments` builds when every lookup succeeds or is not found. */
  function Listed(refs: seq<DeploymentRef>, get: GetApi): (m: map<string, string>)
    ensures forall k :: k in m ==> exists i :: 0 <= i < |refs| && refs[i].name == k
  {
    if refs == [] then map[]
    else
      var v := refs[|refs| - 1];
      var m := Listed(refs[..|refs| - 1], get);
      assert forall i :: 0 <= i < |refs| - 1 ==> refs[..|refs| - 1][i] == refs[i];
      Update(m, v.name, get(v.namespace, v.name))
  }

  /** A failed lookup other than not-found ends the process (`log.Fatal`). */
  function Aborts(get: GetApi): DeploymentRef -> bool {
    (v: DeploymentRef) => get(v.namespace, v.name).ApiError? || get(v.namespace, v.name).OtherError?
  }

  function ListOutcome(refs: seq<DeploymentRef>, get: GetApi): Outcome<map<string, string>> {
    if AnyOf(refs, Aborts(get)) then Fatal else Ok(Listed(refs, get))
  }

  /** `ListDeployments`: one Get per requested deployment, the map filled container by container. */
  method ListDeployments(refs: seq<DeploymentRef>, get: GetApi) returns (r: Outcome<map<string, string>>)
    ensures r == ListOutcome(refs, get)
  {
    var m: map<string, string> := map[];
    for i := 0 to |refs|
      invariant !AnyOf(refs[..i], Aborts(get))
      invariant m == Listed(refs[..i], get)
    {
      AnyOfPrefixStep(refs, i, Aborts(get));
      assert refs[..i + 1][..i] == refs[..i];
      var v := refs[i];
      var lookup := get(v.namespace, v.name);
      if !lookup.Found? {
        if !lookup.NotFound? {
          AnyOfIff(refs, Aborts(get));
          return Fatal;
        }
        continue;
      }
      ghost var m0 := m;
      var cs := lookup.value.containers;
      for j := 0 to |cs|
        invariant m == if AnyOf(cs[..j], NamedAs(v.name)) then m0[v.name := ContainerVersion(cs[..j], v.name)] else m0
      {
        ContainerStep(cs, j, v.name);
        if cs[j].name == v.name {
          m := m[v.name := ExtractImageVersion(cs[j].image)];
        }
      }
      assert cs[..|cs|] == cs;
    }
    assert refs[..|refs|] == refs;
    AnyOfIff(refs, Aborts(get));
    return Ok(m);
  }

  /** The reference at `i` is found and has a container of its own name. */
  predicate Listable(refs: seq<DeploymentRef>, get: GetApi, i: int)
    requires 0 <= i < |refs|
  {
    get(refs[i].namespace, refs[i].name).Found? &&
    AnyOf(get(refs[i].namespace, refs[i].name).value.containers, NamedAs(refs[i].name))
  }

  /** No later reference of the same name is listable. */
  predicate LastListable(refs: seq<DeploymentRef>, get: GetApi, i: int)
    requires 0 <= i < |refs|
  {
    forall j :: i < j < |refs| && refs[j].name == refs[i].name ==> !Listable(refs, get, j)
  }

  /** A name is in the map exactly when some reference of that name is listable. */
  lemma {:induction false} ListedMember(refs: seq<DeploymentRef>, get: GetApi, k: string)
    ensures k in Listed(refs, get) <==> exists i :: 0 <= i < |refs| && refs[i].name == k && Listable(refs, get, i)
  {
    if refs != [] {
      var n := |refs| - 1;
      var init := refs[..n];
      ListedMember(init, get, k);
      assert Listed(refs, get) == Update(Listed(init, get), refs[n].name, get(refs[n].namespace, refs[n].name));
      if exists i :: 0 <= i < |refs| && refs[i].name == k && Listable(refs, get, i) {
        var i :| 0 <= i < |refs| && refs[i].name == k && Listable(refs, get, i);
        if i < n {
          assert init[i] == refs[i];
          assert Listable(init, get, i);
        }
      }
      if exists i :: 0 <= i < n && init[i].name == k && Listable(init, get, i) {
        var i :| 0 <= i < n && init[i].name == k && Listable(init, get, i);
        assert init[i] == refs[i];
        assert Listable(refs, get, i);
      }
    }
  }

  /** A listed name holds the version of the last listable reference of that name. */
  lemma {:induction false} ListedLast(refs: seq<DeploymentRef>, get: GetApi, i: int)
    requires 0 <= i < |refs| && Listable(refs, get, i) && LastListable(refs, get, i)
    ensures refs[i].name in Listed(refs, get)
    ensures Listed(refs, get)[refs[i].name] == ContainerVersion(get(refs[i].namespace, refs[i].name).value.containers, refs[i].name)
  {
    var n := |refs| - 1;
    var init := refs[..n];
    assert Listed(refs, get) == Update(Listed(init, get), refs[n].name, get(refs[n].namespace, refs[n].name));
    if i < n {
      assert init[i] == refs[i];
      assert forall j :: i < j < n ==> init[j] == refs[j];
      assert Listable(init, get, i) && LastListable(init, get, i);
      ListedLast(init, get, i);
    }
  }

  /** Two containers named like the deployment: the second one's version is listed. */
  lemma SecondContainerWins(refs: seq<DeploymentRef>, get: GetApi, a: string, b: string)
    requires refs == [DeploymentRef("web", "prod")]
    requires get("prod", "web") == Found(Deployment("web", [Container("web", a), Container("web", b)]))
    ensures Listed(refs, get) == map["web" := ExtractImageVersion(b)]
  {
    var cs := [Container("web", a), Container("web", b)];
    assert cs[..|cs| - 1] == [Container("web", a)];
    assert NamedAs("web")(cs[1]);
  }

  /** A deployment without a container of its own name is not listed. */
  lemma UnnamedContainerNotListed(refs: seq<DeploymentRef>, get: GetApi, image: string)
    requires refs == [DeploymentRef("web", "prod")]
    requires get("prod", "web") == Found(Deployment("web", [Container("sidecar", image)]))
    ensures Listed(refs, get) == map[]
  {
    var cs := [Container("sidecar", image)];
    assert cs[..|cs| - 1] == [];
    assert !NamedAs("web")(cs[0]);
    assert !AnyOf(cs, NamedAs("web"));
    assert refs[..|refs| - 1] == [];
  }
}
