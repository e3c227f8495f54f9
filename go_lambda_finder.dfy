/**
 * `internal/resource/lambda/finder.go`: Lambda functions by name through
 * `GetFunction`, or by tag through the tagging API's `GetResources` pages.
 */
module GoLambdaFinder {
  import opened Model
  import opened Seqs
  import GoResource
  import LambdaFinder

  /** `GetFunction(name)`: the function's tag map, or an error. */
  type GetFunctionApi = string -> Lookup<map<string, string>>

  /** One `tagtypes.Tag`. */
  datatype KeyValue = KeyValue(key: string, value: string)

  /** One `ResourceTagMapping`: the resource part of its ARN (as `arn.Parse` gives it) and its tags. */
  datatype Mapping = Mapping(arnResource: string, tags: seq<KeyValue>)

  /** One `GetResources` response page. */
  datatype Page = Page(mappings: seq<Mapping>, paginationToken: string)

  /** One `tagtypes.TagFilter`. */
  datatype TagFilter = TagFilter(key: string, values: seq<string>)

  const VersionTag := "version"

  /** The version `findByName` reads from a function's tags: a non-empty `version` tag, else "N/A". */
  function TagVersion(tags: map<string, string>): (v: string)
    ensures VersionTag in tags && tags[VersionTag] != "" ==> v == tags[VersionTag]
    ensures !(VersionTag in tags && tags[VersionTag] != "") ==> v == NotAvailable
    ensures v != ""
  {
    if VersionTag in tags && tags[VersionTag] != "" then tags[VersionTag] else NotAvailable
  }

  /** Any error other than `ResourceNotFoundException` ends `findByName`. */
  function Aborts(getFunction: GetFunctionApi): string -> bool {
    name => getFunction(name).ApiError? || getFunction(name).OtherError?
  }

  function IsFound(getFunction: GetFunctionApi): string -> bool {
    name => getFunction(name).Found?
  }

  /** The Resources of found functions, in order. */
  function FoundResources(getFunction: GetFunctionApi, names: seq<string>): seq<Resource>
    requires forall n :: n in names ==> getFunction(n).Found?
  {
    seq(|names|, i requires 0 <= i < |names| => Resource(LambdaKind, names[i], TagVersion(getFunction(names[i]).value)))
  }

  /**
   * What `findByName` returns: an error when some name's lookup fails with
   * anything but not-found, otherwise the found functions in input order.
   * The exclude list plays no part.
   */
  function NameLookup(names: seq<string>, getFunction: GetFunctionApi): Outcome<seq<Resource>> {
    if AnyOf(names, Aborts(getFunction)) then Error
    else Ok(FoundResources(getFunction, Filter(names, IsFound(getFunction))))
  }

  lemma FoundResourcesAppend(getFunction: GetFunctionApi, names: seq<string>, name: string)
    requires forall n :: n in names ==> getFunction(n).Found?
    requires getFunction(name).Found?
    ensures FoundResources(getFunction, names + [name]) ==
      FoundResources(getFunction, names) + [Resource(LambdaKind, name, TagVersion(getFunction(name).value))]
  {
    var ext := names + [name];
    assert forall n :: n in ext ==> n in names || n == name;
  }

  /** `findByName`: not-found names are skipped, any other error returns nil and the error. */
  method FindByName(names: seq<string>, getFunction: GetFunctionApi) returns (r: Outcome<seq<Resource>>)
    ensures r == NameLookup(names, getFunction)
  {
    var out: seq<Resource> := [];
    for i := 0 to |names|
      invariant !AnyOf(names[..i], Aborts(getFunction))
      invariant out == FoundResources(getFunction, Filter(names[..i], IsFound(getFunction)))
    {
      var v := names[i];
      match getFunction(v)
      case NotFound =>
        NameStep(names, i, getFunction);
        continue;
      case ApiError =>
        AbortingNameFails(names, i, getFunction);
        return Error;
      case OtherError =>
        AbortingNameFails(names, i, getFunction);
        return Error;
      case Found(tags) =>
        var version := NotAvailable;
        if VersionTag in tags && tags[VersionTag] != "" {
          version := tags[VersionTag];
        }
        NameStep(names, i, getFunction);
        out := out + [Resource(LambdaKind, v, version)];
    }
    assert names[..|names|] == names;
    return Ok(out);
  }

  /** A name whose lookup fails with anything but not-found makes the whole lookup fail. */
  lemma AbortingNameFails(names: seq<string>, i: nat, getFunction: GetFunctionApi)
    requires i < |names| && Aborts(getFunction)(names[i])
    ensures NameLookup(names, getFunction) == Error
  {
    AnyOfIff(names, Aborts(getFunction));
  }

  /** A name that does not abort extends the lookup of the names before it by its Resource, if found. */
  lemma NameStep(names: seq<string>, i: nat, getFunction: GetFunctionApi)
    requires i < |names| && !Aborts(getFunction)(names[i])
    ensures AnyOf(names[..i + 1], Aborts(getFunction)) == AnyOf(names[..i], Aborts(getFunction))
    ensures var found := IsFound(getFunction);
      FoundResources(getFunction, Filter(names[..i + 1], found)) ==
        FoundResources(getFunction, Filter(names[..i], found))
        + (if found(names[i]) then [Resource(LambdaKind, names[i], TagVersion(getFunction(names[i]).value))] else [])
  {
    var found := IsFound(getFunction);
    AnyOfPrefixStep(names, i, Aborts(getFunction));
    FilterPrefixStep(names, i, found);
    if found(names[i]) {
      FoundResourcesAppend(getFunction, Filter(names[..i], found), names[i]);
    }
  }

  /** `toTagFilters`: one filter per tag key, in map order, carrying its values unchanged. */
  method ToTagFilters(tags: seq<Tag>) returns (out: seq<TagFilter>)
    ensures |out| == |tags|
    ensures forall i :: 0 <= i < |tags| ==> out[i].key == tags[i].key && out[i].values == tags[i].values
  {
    out := [];
    for i := 0 to |tags|
      invariant |out| == i
      invariant forall k :: 0 <= k < i ==> out[k] == TagFilter(tags[k].key, tags[k].values)
    {
      out := out + [TagFilter(tags[i].key, tags[i].values)];
    }
  }

  /** The end of the `:`-separated field that starts at `i`: the next `:`, or the end. */
  function FieldEnd(s: string, i: nat): (e: nat)
    requires i <= |s|
    ensures i <= e <= |s|
    ensures ':' !in s[i..e]
    ensures e < |s| ==> s[e] == ':'
    decreases |s| - i
  {
    if i == |s| || s[i] == ':' then i else FieldEnd(s, i + 1)
  }

  /**
   * `extractName`: the second `:`-separated field of the ARN's resource part
   * (`function:NAME` or `function:NAME:QUALIFIER`). Indexing field 1 panics
   * when there is no `:`.
   */
  function ExtractName(arnResource: string): (name: string)
    requires ':' in arnResource
    ensures ':' !in name
    ensures exists i :: FieldAt(arnResource, i, name)
  {
    var i := FieldEnd(arnResource, 0);
    var e := FieldEnd(arnResource, i + 1);
    assert FieldAt(arnResource, i, arnResource[i + 1..e]);
    arnResource[i + 1..e]
  }

  /** `name` is the field right after the first `:`, which is at `i`. */
  predicate FieldAt(s: string, i: int, name: string) {
    && 0 <= i < |s| && s[i] == ':' && ':' !in s[..i]
    && i + 1 + |name| <= |s| && s[i + 1..i + 1 + |name|] == name
    && (i + 1 + |name| == |s| || s[i + 1 + |name|] == ':')
  }

  /** `function:NAME` and `function:NAME:QUALIFIER` both name `NAME`. */
  lemma ExtractNameOfFunctionArn(kind: string, name: string, qualifier: string)
    requires ':' !in kind && ':' !in name
    ensures ExtractName(kind + ":" + name) == name
    ensures ExtractName(kind + ":" + name + ":" + qualifier) == name
  {
    var s1 := kind + ":" + name;
    var s2 := kind + ":" + name + ":" + qualifier;
    FieldEndSkips(s1, 0, |kind|);
    FieldEndSkips(s1, |kind| + 1, |s1|);
    FieldEndSkips(s2, 0, |kind|);
    FieldEndSkips(s2, |kind| + 1, |kind| + 1 + |name|);
    assert s1[|kind| + 1..] == name;
    assert s2[|kind| + 1..|kind| + 1 + |name|] == name;
  }

  /** A field with no `:` in it runs up to the next `:` or the end. */
  lemma {:induction false} FieldEndSkips(s: string, i: nat, e: nat)
    requires i <= e <= |s|
    requires forall k :: i <= k < e ==> s[k] != ':'
    requires e == |s| || s[e] == ':'
    ensures FieldEnd(s, i) == e
    decreases e - i
  {
    if i < e {
      FieldEndSkips(s, i + 1, e);
    }
  }

  /** The value of the last `version` tag, even an empty one; "N/A" when there is none. */
  function TagsVersion(tags: seq<KeyValue>): string {
    if tags == [] then NotAvailable
    else if tags[|tags| - 1].key == VersionTag then tags[|tags| - 1].value
    else TagsVersion(tags[..|tags| - 1])
  }

  /** `TagsVersion` is "N/A" without a `version` tag, and otherwise the last such tag's value. */
  lemma {:induction false} TagsVersionIsLast(tags: seq<KeyValue>)
    ensures (forall i :: 0 <= i < |tags| ==> tags[i].key != VersionTag) ==> TagsVersion(tags) == NotAvailable
    ensures forall i :: 0 <= i < |tags| && tags[i].key == VersionTag && LastWithKey(tags, i) ==> TagsVersion(tags) == tags[i].value
  {
    if tags != [] && tags[|tags| - 1].key != VersionTag {
      var init := tags[..|tags| - 1];
      TagsVersionIsLast(init);
      assert forall i :: 0 <= i < |init| ==> init[i] == tags[i];
      assert forall i :: 0 <= i < |init| && LastWithKey(tags, i) ==> LastWithKey(init, i);
    }
  }

  /** No tag after position `i` is a `version` tag. */
  predicate LastWithKey(tags: seq<KeyValue>, i: int)
    requires 0 <= i < |tags|
  {
    forall j :: i < j < |tags| ==> tags[j].key != VersionTag
  }

  /** `extractVersion`: scans every tag; a later `version` tag overrides an earlier one. */
  method ExtractVersion(tags: seq<KeyValue>) returns (version: string)
    ensures version == TagsVersion(tags)
  {
    version := NotAvailable;
    for i := 0 to |tags|
      invariant version == TagsVersion(tags[..i])
    {
      assert tags[..i + 1][..i] == tags[..i];
      if tags[i].key != VersionTag {
        continue;
      }
      version := tags[i].value;
    }
    assert tags[..|tags|] == tags;
  }

  /** A repeated `version` tag: the later value wins, even when it is empty. */
  lemma LaterVersionTagWins(a: string, b: string)
    ensures TagsVersion([KeyValue(VersionTag, a), KeyValue("team", b), KeyValue(VersionTag, "")]) == ""
    ensures TagsVersion([KeyValue("team", b)]) == NotAvailable
  {
    var t := [KeyValue(VersionTag, a), KeyValue("team", b), KeyValue(VersionTag, "")];
    assert t[2].key == VersionTag && LastWithKey(t, 2);
    assert "team" != VersionTag;
    TagsVersionIsLast(t);
    TagsVersionIsLast([KeyValue("team", b)]);
  }

  /** The response pages end: some response is an error or carries an empty pagination token. */
  predicate Ends(responses: seq<Lookup<Page>>)
    decreases |responses|
  {
    responses != [] &&
    (!responses[0].Found? || responses[0].value.paginationToken == "" || Ends(responses[1..]))
  }

  /**
   * The mappings the paging loop gathers from the successive responses: each
   * page appended in order until one has an empty token; an error response
   * ends the search with that error.
   */
  function Paged(responses: seq<Lookup<Page>>): Outcome<seq<Mapping>>
    requires Ends(responses)
    decreases |responses|
  {
    if !responses[0].Found? then Error
    else
      var page := responses[0].value;
      if page.paginationToken == "" then Ok(page.mappings)
      else
        var rest := Paged(responses[1..]);
        if rest.Ok? then Ok(page.mappings + rest.value) else Error
  }

  /** The paging loop of `findByTag`: the first `GetResources` call, then one more per non-empty token. */
  method Paginate(responses: seq<Lookup<Page>>) returns (r: Outcome<seq<Mapping>>)
    requires Ends(responses)
    ensures r == Paged(responses)
  {
    var k := 0;
    var response := responses[0];
    if !response.Found? {
      return Error;
    }
    var out := response.value.mappings;
    ghost var before: seq<Mapping> := [];
    assert responses[0..] == responses;
    assert After([], Paged(responses)) == Paged(responses) by {
      if Paged(responses).Ok? {
        assert [] + Paged(responses).value == Paged(responses).value;
      }
    }
    while response.value.paginationToken != ""
      invariant 0 <= k < |responses| && Ends(responses[k..])
      invariant response == responses[k] && response.Found?
      invariant out == before + response.value.mappings
      invariant Paged(responses) == After(before, Paged(responses[k..]))
      decreases |responses| - k
    {
      PagedStep(responses, k);
      AfterAfter(before, response.value.mappings, Paged(responses[k + 1..]));
      k := k + 1;
      before := out;
      response := responses[k];
      if !response.Found? {
        return Error;
      }
      out := out + response.value.mappings;
    }
    return Ok(out);
  }

  /** A page with a token is followed by the pages after it: its mappings come first. */
  lemma PagedStep(responses: seq<Lookup<Page>>, k: nat)
    requires k < |responses| && Ends(responses[k..])
    requires responses[k].Found? && responses[k].value.paginationToken != ""
    ensures k + 1 < |responses| && Ends(responses[k + 1..])
    ensures Paged(responses[k..]) == After(responses[k].value.mappings, Paged(responses[k + 1..]))
  {
    assert responses[k..][1..] == responses[k + 1..];
  }

  /** The outcome `o` with `before` in front of its mappings. */
  function After(before: seq<Mapping>, o: Outcome<seq<Mapping>>): (r: Outcome<seq<Mapping>>)
    ensures r.Ok? <==> o.Ok?
    ensures r.Ok? ==> r.value == before + o.value
  {
    if o.Ok? then Ok(before + o.value) else Error
  }

  lemma AfterAfter(a: seq<Mapping>, b: seq<Mapping>, o: Outcome<seq<Mapping>>)
    ensures After(a, After(b, o)) == After(a + b, o)
  {
    if o.Ok? {
      assert a + (b + o.value) == (a + b) + o.value;
    }
  }

  /** Every mapping in the pages has a resource part with a `:` (a function ARN); `extractName` panics otherwise. */
  predicate Named(responses: seq<Lookup<Page>>) {
    forall i, m :: 0 <= i < |responses| && responses[i].Found? && m in responses[i].value.mappings ==> ':' in m.arnResource
  }

  /** Every mapping the paging gathers comes from one of the responses. */
  lemma {:induction false} PagedFromResponses(responses: seq<Lookup<Page>>)
    requires Ends(responses)
    ensures Paged(responses).Ok? ==> forall m :: m in Paged(responses).value ==>
      exists i :: 0 <= i < |responses| && responses[i].Found? && m in responses[i].value.mappings
    decreases |responses|
  {
    if responses[0].Found? && responses[0].value.paginationToken != "" {
      PagedFromResponses(responses[1..]);
      var rest := Paged(responses[1..]);
      if rest.Ok? {
        forall m | m in Paged(responses).value
          ensures exists i :: 0 <= i < |responses| && responses[i].Found? && m in responses[i].value.mappings
        {
          if m !in responses[0].value.mappings {
            assert m in rest.value;
            var i :| 0 <= i < |responses[1..]| && responses[1..][i].Found? && m in responses[1..][i].value.mappings;
            assert responses[i + 1] == responses[1..][i];
          }
        }
      }
    }
  }

  /**
   * The Resources the exclusion loop of `findByTag` emits: one per mapping
   * whose name no exclude pattern matches, in page order.
   */
  function Kept(ms: seq<Mapping>, excluded: seq<GoResource.Regexp>, re: RegexEngine): (r: seq<Resource>)
    requires forall m :: m in ms ==> ':' in m.arnResource
    decreases |ms|
  {
    if ms == [] then []
    else
      var m := ms[|ms| - 1];
      var name := ExtractName(m.arnResource);
      assert forall x :: x in ms[..|ms| - 1] ==> x in ms;
      Kept(ms[..|ms| - 1], excluded, re)
      + (if GoResource.IsExcluded(name, excluded, re) then [] else [Resource(LambdaKind, name, TagsVersion(m.tags))])
  }

  /** Every reported Resource comes from a mapping whose name is not excluded. */
  lemma {:induction false} KeptSound(ms: seq<Mapping>, excluded: seq<GoResource.Regexp>, re: RegexEngine, x: Resource)
    requires forall m :: m in ms ==> ':' in m.arnResource
    requires x in Kept(ms, excluded, re)
    ensures x.kind == LambdaKind && !GoResource.IsExcluded(x.name, excluded, re)
    ensures exists m :: m in ms && x.name == ExtractName(m.arnResource) && x.version == TagsVersion(m.tags)
    decreases |ms|
  {
    var init := ms[..|ms| - 1];
    var last := ms[|ms| - 1];
    assert forall m :: m in init ==> m in ms;
    if x in Kept(init, excluded, re) {
      KeptSound(init, excluded, re, x);
      var m :| m in init && x.name == ExtractName(m.arnResource) && x.version == TagsVersion(m.tags);
      assert m in ms;
    } else {
      assert last in ms;
    }
  }

  /** One more mapping adds its Resource at the end, unless its name is excluded. */
  lemma KeptStep(ms: seq<Mapping>, i: nat, excluded: seq<GoResource.Regexp>, re: RegexEngine)
    requires i < |ms| && forall m :: m in ms ==> ':' in m.arnResource
    ensures forall m :: m in ms[..i + 1] ==> ':' in m.arnResource
    ensures Kept(ms[..i + 1], excluded, re) == Kept(ms[..i], excluded, re)
      + (if GoResource.IsExcluded(ExtractName(ms[i].arnResource), excluded, re) then []
         else [Resource(LambdaKind, ExtractName(ms[i].arnResource), TagsVersion(ms[i].tags))])
  {
    assert ms[..i + 1][..i] == ms[..i];
    assert forall x :: x in ms[..i + 1] ==> x in ms;
  }

  /** Conversely, every mapping whose name is not excluded is reported. */
  lemma {:induction false} KeptComplete(ms: seq<Mapping>, excluded: seq<GoResource.Regexp>, re: RegexEngine, m: Mapping)
    requires forall x :: x in ms ==> ':' in x.arnResource
    requires m in ms && !GoResource.IsExcluded(ExtractName(m.arnResource), excluded, re)
    ensures Resource(LambdaKind, ExtractName(m.arnResource), TagsVersion(m.tags)) in Kept(ms, excluded, re)
  {
    var last := ms[|ms| - 1];
    assert forall x :: x in ms[..|ms| - 1] ==> x in ms;
    if m != last {
      assert ms == ms[..|ms| - 1] + [last];
      KeptComplete(ms[..|ms| - 1], excluded, re, m);
    }
  }

  /**
   * What `findByTag` returns: an error when an exclude pattern does not
   * compile (before any query) or when a page request fails; otherwise the
   * kept mappings of all pages.
   */
  function TagLookup(exclude: seq<string>, re: RegexEngine, responses: seq<Lookup<Page>>): Outcome<seq<Resource>>
    requires Ends(responses) && Named(responses)
  {
    if !(forall k :: 0 <= k < |exclude| ==> re.compiles(exclude[k])) then Error
    else
      var paged := Paged(responses);
      if !paged.Ok? then Error
      else
        PagedFromResponses(responses);
        Ok(Kept(paged.value, GoResource.Regexps(exclude), re))
  }

  /** `findByTag`, with the page responses the tagging API gives in turn. */
  method FindByTag(tags: seq<Tag>, exclude: seq<string>, re: RegexEngine, responses: seq<Lookup<Page>>)
    returns (r: Outcome<seq<Resource>>)
    requires Ends(responses) && Named(responses)
    ensures r == TagLookup(exclude, re, responses)
  {
    var excluded := GoResource.ExcludedAsRegexp(exclude, re);
    if !excluded.Ok? {
      return Error;
    }
    assert excluded.value == GoResource.Regexps(exclude);
    var filters := ToTagFilters(tags);
    var paged := Paginate(responses);
    if !paged.Ok? {
      return Error;
    }
    PagedFromResponses(responses);
    var out := paged.value;
    var res: seq<Resource> := [];
    assert forall m :: m in out ==> ':' in m.arnResource;
    for i := 0 to |out|
      invariant forall m :: m in out ==> ':' in m.arnResource
      invariant res == Kept(out[..i], excluded.value, re)
    {
      KeptStep(out, i, excluded.value, re);
      var v := out[i];
      var name := ExtractName(v.arnResource);
      if GoResource.IsExcluded(name, excluded.value, re) {
        continue;
      }
      var version := ExtractVersion(v.tags);
      res := res + [Resource(LambdaKind, name, version)];
    }
    assert out[..|out|] == out;
    return Ok(res);
  }

  /** What `FindResources` returns: a non-empty include list is looked up by name, otherwise by tag. */
  function Found(config: GoResource.Config, re: RegexEngine, getFunction: GetFunctionApi, responses: seq<Lookup<Page>>)
    : Outcome<seq<Resource>>
    requires Ends(responses) && Named(responses)
  {
    if |config.includes| > 0 then NameLookup(config.includes, getFunction)
    else TagLookup(config.exclude, re, responses)
  }

  method FindResources(config: GoResource.Config, re: RegexEngine, getFunction: GetFunctionApi, responses: seq<Lookup<Page>>)
    returns (r: Outcome<seq<Resource>>)
    requires Ends(responses) && Named(responses)
    ensures r == Found(config, re, getFunction, responses)
  {
    if |config.includes| > 0 {
      r := FindByName(config.includes, getFunction);
      return;
    }
    r := FindByTag(config.tags, config.exclude, re, responses);
  }

  /** With an include list, an exclude pattern that does not even compile changes nothing. */
  lemma IncludeIgnoresExclude(config: GoResource.Config, re: RegexEngine, getFunction: GetFunctionApi, responses: seq<Lookup<Page>>)
    requires Ends(responses) && Named(responses)
    requires |config.includes| > 0
    ensures Found(config, re, getFunction, responses) == Found(config.(exclude := ["("]), re, getFunction, responses)
  {
  }

  /** Every function found by tag is named by some mapping and matched by no exclude pattern. */
  lemma TagResultsNotExcluded(exclude: seq<string>, re: RegexEngine, responses: seq<Lookup<Page>>, x: Resource)
    requires Ends(responses) && Named(responses)
    requires TagLookup(exclude, re, responses).Ok? && x in TagLookup(exclude, re, responses).value
    ensures forall k :: 0 <= k < |exclude| ==> !re.matches(exclude[k], x.name)
    ensures exists m :: m in Paged(responses).value && ':' in m.arnResource && x.name == ExtractName(m.arnResource)
  {
    var rs := GoResource.Regexps(exclude);
    PagedFromResponses(responses);
    var ms := Paged(responses).value;
    forall m | m in ms
      ensures ':' in m.arnResource
    {
      var i :| 0 <= i < |responses| && responses[i].Found? && m in responses[i].value.mappings;
    }
    KeptSound(Paged(responses).value, rs, re, x);
    assert forall k :: 0 <= k < |exclude| ==> rs[k].expr == exclude[k];
  }

  /**
   * A successful `findByName` met no lookup failure other than not-found, and
   * each Resource it reports is a requested, found function with its tag version.
   */
  lemma NameLookupReportsFound(names: seq<string>, getFunction: GetFunctionApi)
    requires NameLookup(names, getFunction).Ok?
    ensures forall k :: 0 <= k < |names| ==> !(getFunction(names[k]).ApiError? || getFunction(names[k]).OtherError?)
    ensures |NameLookup(names, getFunction).value| <= |names|
    ensures forall x :: x in NameLookup(names, getFunction).value ==>
      && x.kind == LambdaKind && x.name in names && getFunction(x.name).Found?
      && x.version == TagVersion(getFunction(x.name).value)
  {
    AnyOfIff(names, Aborts(getFunction));
    var kept := Filter(names, IsFound(getFunction));
    forall x | x in NameLookup(names, getFunction).value
      ensures x.kind == LambdaKind && x.name in names && getFunction(x.name).Found?
      ensures x.version == TagVersion(getFunction(x.name).value)
    {
      var i :| 0 <= i < |kept| && x == FoundResources(getFunction, kept)[i];
      assert kept[i] in kept;
    }
  }

  /**
   * The Go reader and the Java reader (`LambdaFinder.ExtractVersion`) agree
   * on every tag map the lookup returns: an empty `version` tag reads as "N/A"
   * in both.
   */
  lemma TagVersionAgreesWithJava(tags: map<string, string>)
    ensures TagVersion(tags) == LambdaFinder.ExtractVersion(Some(tags))
    ensures TagVersion(tags) != ""
  {
  }
}
