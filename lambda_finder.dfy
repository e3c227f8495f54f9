/**
 * `LambdaFinder` (Java): Lambda functions looked up by name, versioned by
 * their `version` tag. `getFunction` is a given function.
 */
module LambdaFinder {
  import opened Model
  import opened Seqs
  import ResourceFinder

  /** `getFunction(name)`: the function's (nullable) tag map, or the exception it throws. */
  type GetFunctionApi = string -> Lookup<Option<map<string, string>>>

  const VersionTag := "version"

  /** `extractVersion`: the non-empty `version` tag, or "N/A". */
  function ExtractVersion(tags: Option<map<string, string>>): (r: string)
    ensures tags.Some? && VersionTag in tags.value && tags.value[VersionTag] != "" ==>
      r == tags.value[VersionTag]
    ensures tags.None? || VersionTag !in tags.value || tags.value[VersionTag] == "" ==>
      r == NotAvailable
    ensures r != ""
  {
    if tags.None? then NotAvailable
    else if VersionTag in tags.value && tags.value[VersionTag] != "" then tags.value[VersionTag]
    else NotAvailable
  }

  /** The exclusion test passes `name` without throwing. */
  predicate NotExcluded(name: string, exclude: Option<seq<string>>, re: RegexEngine) {
    var ex := ResourceFinder.IsExcluded(name, exclude, re);
    ex.Ok? && !ex.value
  }

  /**
   * Whether `findByName` throws at `name`: the exclusion test throws, or the
   * lookup fails with an exception that is neither `ResourceNotFoundException`
   * nor another `SdkException`.
   */
  function NameThrows(exclude: Option<seq<string>>, re: RegexEngine, getFunction: GetFunctionApi): string -> bool {
    name =>
      var ex := ResourceFinder.IsExcluded(name, exclude, re);
      ex.Error? || (ex.Ok? && !ex.value && getFunction(name).OtherError?)
  }

  /** A name `findByName` reports: not excluded, and found. */
  function KeptName(exclude: Option<seq<string>>, re: RegexEngine, getFunction: GetFunctionApi): string -> bool {
    name => NotExcluded(name, exclude, re) && getFunction(name).Found?
  }

  /** The Resources of found functions, in order. */
  function FoundResources(getFunction: GetFunctionApi, names: seq<string>): seq<Resource>
    requires forall n :: n in names ==> getFunction(n).Found?
  {
    seq(|names|, i requires 0 <= i < |names| => Resource(LambdaKind, names[i], ExtractVersion(getFunction(names[i]).value)))
  }

  /**
   * What `findByName` gives: the exception when some name throws, otherwise
   * one Resource per kept name, in input order.
   */
  function NameLookup(names: seq<string>, exclude: Option<seq<string>>, re: RegexEngine, getFunction: GetFunctionApi): Outcome<seq<Resource>> {
    if AnyOf(names, NameThrows(exclude, re, getFunction)) then Error
    else Ok(FoundResources(getFunction, Filter(names, KeptName(exclude, re, getFunction))))
  }

  /** One iteration of `findByName`. */
  method LookupName(name: string, exclude: Option<seq<string>>, re: RegexEngine, getFunction: GetFunctionApi)
    returns (step: Outcome<Option<Resource>>)
    ensures step.Error? <==> NameThrows(exclude, re, getFunction)(name)
    ensures step.Ok? ==> (step.value.Some? <==> KeptName(exclude, re, getFunction)(name))
    ensures step.Ok? && step.value.Some? ==>
      getFunction(name).Found? && step.value.value == Resource(LambdaKind, name, ExtractVersion(getFunction(name).value))
    ensures !step.Fatal?
  {
    var excluded := ResourceFinder.IsExcluded(name, exclude, re);
    if excluded.Error? {
      return Error;
    }
    if excluded.Ok? && excluded.value {
      assert !NotExcluded(name, exclude, re);
      return Ok(None);
    }
    assert NotExcluded(name, exclude, re);
    match getFunction(name)
    case Found(tags) =>
      return Ok(Some(Resource(LambdaKind, name, ExtractVersion(tags))));
    case NotFound =>
      return Ok(None);
    case ApiError =>
      return Ok(None);
    case OtherError =>
      return Error;
  }

  /** Found names appended one at a time give their Resources appended one at a time. */
  lemma FoundResourcesAppend(getFunction: GetFunctionApi, names: seq<string>, name: string)
    requires forall n :: n in names ==> getFunction(n).Found?
    requires getFunction(name).Found?
    ensures FoundResources(getFunction, names + [name]) ==
      FoundResources(getFunction, names) + [Resource(LambdaKind, name, ExtractVersion(getFunction(name).value))]
  {
    var ext := names + [name];
    assert forall n :: n in ext ==> n in names || n == name;
  }

  /** `findByName`: skips excluded names, missing functions and functions whose lookup fails. */
  method FindByName(names: seq<string>, exclude: Option<seq<string>>, re: RegexEngine, getFunction: GetFunctionApi)
    returns (r: Outcome<seq<Resource>>)
    ensures r == NameLookup(names, exclude, re, getFunction)
  {
    var resources: seq<Resource> := [];
    for i := 0 to |names|
      invariant !AnyOf(names[..i], NameThrows(exclude, re, getFunction))
      invariant resources == FoundResources(getFunction, Filter(names[..i], KeptName(exclude, re, getFunction)))
    {
      var step := LookupName(names[i], exclude, re, getFunction);
      if step.Error? {
        ThrowingNameFails(names, i, exclude, re, getFunction);
        return Error;
      }
      NameStep(names, i, exclude, re, getFunction);
      if step.value.Some? {
        resources := resources + [step.value.value];
      }
    }
    assert names[..|names|] == names;
    return Ok(resources);
  }

  /** A name that throws makes the whole lookup throw. */
  lemma ThrowingNameFails(names: seq<string>, i: nat, exclude: Option<seq<string>>, re: RegexEngine, getFunction: GetFunctionApi)
    requires i < |names| && NameThrows(exclude, re, getFunction)(names[i])
    ensures NameLookup(names, exclude, re, getFunction) == Error
  {
    AnyOfIff(names, NameThrows(exclude, re, getFunction));
  }

  /** A name that does not throw extends the lookup of the names before it by its own Resource, if kept. */
  lemma NameStep(names: seq<string>, i: nat, exclude: Option<seq<string>>, re: RegexEngine, getFunction: GetFunctionApi)
    requires i < |names| && !NameThrows(exclude, re, getFunction)(names[i])
    ensures AnyOf(names[..i + 1], NameThrows(exclude, re, getFunction)) == AnyOf(names[..i], NameThrows(exclude, re, getFunction))
    ensures var keep := KeptName(exclude, re, getFunction);
      FoundResources(getFunction, Filter(names[..i + 1], keep)) ==
        FoundResources(getFunction, Filter(names[..i], keep))
        + (if keep(names[i]) then [Resource(LambdaKind, names[i], ExtractVersion(getFunction(names[i]).value))] else [])
  {
    var keep := KeptName(exclude, re, getFunction);
    AnyOfPrefixStep(names, i, NameThrows(exclude, re, getFunction));
    FilterPrefixStep(names, i, keep);
    if keep(names[i]) {
      FoundResourcesAppend(getFunction, Filter(names[..i], keep), names[i]);
    }
  }

  /** What `findResources` completes with: name lookup, or an empty list when there is no include list. */
  function Found(config: ResourceConfig, re: RegexEngine, getFunction: GetFunctionApi): Outcome<seq<Resource>> {
    if UsesInclude(config) then NameLookup(config.includes.value, config.exclude, re, getFunction)
    else Ok([])
  }

  /** `findResources`: tag-based discovery is not implemented, so only the include list is searched. */
  method FindResources(config: ResourceConfig, re: RegexEngine, getFunction: GetFunctionApi) returns (r: Outcome<seq<Resource>>)
    ensures r == Found(config, re, getFunction)
  {
    if UsesInclude(config) {
      r := FindByName(config.includes.value, config.exclude, re, getFunction);
      return;
    }
    return Ok([]);
  }

  /** With a null or empty include list nothing is found, whatever the account holds. */
  lemma NoIncludeFindsNothing(config: ResourceConfig, re: RegexEngine, getFunction: GetFunctionApi)
    requires !UsesInclude(config)
    ensures Found(config, re, getFunction) == Ok([])
  {
  }

  /**
   * The reported functions are the requested names that are neither excluded
   * nor missing, in their requested order, all typed "Lambda".
   */
  lemma {:induction false} ReportsKeptNamesInOrder(names: seq<string>, exclude: Option<seq<string>>, re: RegexEngine, getFunction: GetFunctionApi)
    requires NameLookup(names, exclude, re, getFunction).Ok?
    ensures var rs := NameLookup(names, exclude, re, getFunction).value;
      var kept := Filter(names, KeptName(exclude, re, getFunction));
      && |rs| == |kept|
      && (forall i :: 0 <= i < |rs| ==> rs[i].name == kept[i] && rs[i].kind == LambdaKind)
      && (forall res :: res in rs ==> res.name in names && NotExcluded(res.name, exclude, re))
  {
    var rs := NameLookup(names, exclude, re, getFunction).value;
    var kept := Filter(names, KeptName(exclude, re, getFunction));
    forall res | res in rs
      ensures res.name in names && NotExcluded(res.name, exclude, re)
    {
      var i :| 0 <= i < |rs| && rs[i] == res;
      assert kept[i] in kept;
    }
  }

  /**
   * A missing function, or one whose lookup fails with an `SdkException`, is
   * skipped on its own: the names on both sides of it are reported as if it were absent.
   */
  lemma FailedLookupSkipsOnlyThatName(before: seq<string>, name: string, after: seq<string>, exclude: Option<seq<string>>, re: RegexEngine, getFunction: GetFunctionApi)
    requires NotExcluded(name, exclude, re)
    requires getFunction(name).NotFound? || getFunction(name).ApiError?
    ensures NameLookup(before + [name] + after, exclude, re, getFunction) == NameLookup(before + after, exclude, re, getFunction)
  {
    assert !NameThrows(exclude, re, getFunction)(name);
    assert !KeptName(exclude, re, getFunction)(name);
    DropRejected(before, name, after, KeptName(exclude, re, getFunction), NameThrows(exclude, re, getFunction));
  }

  /** A found, non-excluded function adds exactly its own Resource at the end. */
  lemma {:induction false} FoundNameAddsOne(names: seq<string>, name: string, exclude: Option<seq<string>>, re: RegexEngine, getFunction: GetFunctionApi)
    requires NameLookup(names, exclude, re, getFunction).Ok?
    requires NotExcluded(name, exclude, re)
    requires getFunction(name).Found?
    ensures NameLookup(names + [name], exclude, re, getFunction) ==
      Ok(NameLookup(names, exclude, re, getFunction).value + [Resource(LambdaKind, name, ExtractVersion(getFunction(name).value))])
  {
    var all := names + [name];
    var keep := KeptName(exclude, re, getFunction);
    assert all[..|all| - 1] == names;
    assert all[|all| - 1] == name;
    assert !NameThrows(exclude, re, getFunction)(name);
    assert keep(name);
    assert Filter(all, keep) == Filter(names, keep) + [name];
    FoundResourcesAppend(getFunction, Filter(names, keep), name);
  }
}
