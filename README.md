# drifter, modelled in Dafny

drifter reports version drift. For each configured environment it finds the
deployed version of named AWS Lambda functions and Kubernetes Deployments. It
then prints a table (or JSON) that marks where an environment's version
differs from the others. The repository contains the program twice: a Java
port under `src/main/java` and the original Go under `main.go` and
`internal/`. This project models the deterministic core of both and proves
what it promises:

- **Image versions.** The regex `.+:(\d+\.\d+\.\d+(-SNAPSHOT-.+)?)` that
  both programs use is written out as a leftmost, greedy, unanchored matcher
  (`image_version.dfy`).
- **Exclusion filtering.** Java matches the whole name; Go matches a
  substring. Both run over an abstract regex engine, with a literal-pattern
  engine for concrete cases (`resource_finder.dfy`, `go_resource.dfy`).
- **The finders.** The Java Deployment and Lambda finders, the Go Lambda
  finder, and the Go Kubernetes finder are modelled as loops over given
  lookup functions. Each lookup gives the item, not-found, an API error, or
  another error. Pagination responses are a given sequence of pages
  (`deployment_finder.dfy`, `lambda_finder.dfy`, `go_lambda_finder.dfy`,
  `go_deployment_finder.dfy`, `go_deployments.dfy`).
- **Label selectors.** Java builds the text form; Go builds a
  `LabelSelector` with match labels and `In` requirements.
- **Drift.** Java uses an order-dependent "more than one distinct version
  so far" mark, groups results by name and then by environment, and builds
  JSON rows through find-or-create (`drifter_application.dfy`). Go has
  `detectDrift`, which rewrites a slice in place (an `array` here), plus
  `joinEnvs` and the row selection of `writeTable` (`go_main.dfy`).
- **Config formats.** The config format is chosen from the file extension
  (`configuration_reader.dfy`, `go_config_reader.dfy`).

Go's `log.Fatal` is the outcome `Fatal`. A returned or thrown error is
`Error`. Map iteration orders (Java `HashMap`, Go maps) are given
sequences of entries.

## Model

| member | source | states |
|---|---|---|
| ImageVersion.ExtractVersionFromImage | src/main/java/com/example/drifter/resource/k8s/DeploymentFinder.java:158-164 | "N/A" exactly when the pattern finds no match; a version that is found is well-formed (three digit runs, optional `-SNAPSHOT-` tail) and is text that follows some colon of the image that is not its first character |
| ImageVersion.LineEndIsFirstTerminator | src/main/java/com/example/drifter/resource/k8s/DeploymentFinder.java:23 | the search splits at the first line terminator: none before it, one at it unless the text ends |
| ImageVersion.FindShape | src/main/java/com/example/drifter/resource/k8s/DeploymentFinder.java:23 | any match of the search is a well-formed version that starts right after a colon at index ≥ 1 |
| ImageVersion.TaggedImageGivesItsVersion | internal/resource/k8s/deployments.go:14 | `repo:v` with a non-empty repository, a well-formed colon-free `v` and no line terminator gives exactly `v` |
| ImageVersion.ReleaseTagExample | internal/resource/k8s/deployments.go:49-56 | `repo/app:2.10.3` gives "2.10.3" in both regex dialects |
| ImageVersion.SnapshotTagExample | src/main/java/com/example/drifter/resource/k8s/DeploymentFinder.java:158-164 | `repo/app:2.10.3-SNAPSHOT-abc` keeps the snapshot tail |
| ImageVersion.LatestTagExample | internal/resource/k8s/deployments.go:49-56 | a non-numeric tag (`repo/app:latest`) gives "N/A" |
| ResourceFinder.AnyMatch | src/main/java/com/example/drifter/resource/ResourceFinder.java:17-19 | the lazy stream: true iff a pattern matches the whole name and every earlier pattern compiles; false iff all compile and none matches; an error iff some pattern fails to compile before any match |
| ResourceFinder.IsExcluded | src/main/java/com/example/drifter/resource/ResourceFinder.java:12-20 | a null or empty pattern list excludes nothing; the result is never `Fatal` |
| ResourceFinder.ExcludedIffSomeMatch | src/main/java/com/example/drifter/resource/ResourceFinder.java:17-19 | with compilable patterns, a name is excluded iff some pattern fully matches it |
| ResourceFinder.ExclusionMonotone | src/main/java/com/example/drifter/resource/ResourceFinder.java:17-19 | adding patterns never un-excludes a name |
| ResourceFinder.ExclusionIgnoresOrder | src/main/java/com/example/drifter/resource/ResourceFinder.java:17-19 | the same patterns in any order give the same answer |
| ResourceFinder.LiteralPatternMatchesWholeName | src/main/java/com/example/drifter/resource/ResourceFinder.java:19 | literal "foo" excludes "foo" but not "foobar" or "fo" |
| ResourceFinder.InvalidPatternThrows | src/main/java/com/example/drifter/resource/ResourceFinder.java:18 | a non-compiling pattern reached before any match makes the check throw |
| DeploymentFinder.FirstUsable | src/main/java/com/example/drifter/resource/k8s/DeploymentFinder.java:143-147 | the index of the first container named like the deployment with an image, or none when no container is usable |
| DeploymentFinder.SelectedImage | src/main/java/com/example/drifter/resource/k8s/DeploymentFinder.java:136-155 | a null spec, template, pod spec or container list gives no image; otherwise the first usable container's image, else the first container's image (possibly null), else none |
| DeploymentFinder.ImageVersionOf | src/main/java/com/example/drifter/resource/k8s/DeploymentFinder.java:135-156 | the version of the first container named like the deployment that has an image; failing that, of the first container's image; "N/A" with no container list, an empty one, or a first container without an image |
| DeploymentFinder.ExtractImageVersion | src/main/java/com/example/drifter/resource/k8s/DeploymentFinder.java:135-156 | the early-return loop computes `ImageVersionOf` |
| DeploymentFinder.BuildLabelSelector | src/main/java/com/example/drifter/resource/k8s/DeploymentFinder.java:118-133 | the loop builds one term per tag entry (`k=v` or `k in (v1,...)`), joined by "," |
| DeploymentFinder.LabelSelectorExample | src/main/java/com/example/drifter/resource/k8s/DeploymentFinder.java:125-132 | `app=[web]`, `tier=[front,back]` give `app=web,tier in (front,back)` |
| DeploymentFinder.LookupName | src/main/java/com/example/drifter/resource/k8s/DeploymentFinder.java:53-75 | one iteration: throws iff the exclusion check throws or a non-API error escapes; reports a Resource iff the name is not excluded and is found, with its version |
| DeploymentFinder.FindByName | src/main/java/com/example/drifter/resource/k8s/DeploymentFinder.java:49-79 | the loop gives an error iff some name throws; otherwise the found, non-excluded names in order |
| DeploymentFinder.ListedStep | src/main/java/com/example/drifter/resource/k8s/DeploymentFinder.java:97-107 | one listed deployment: throws iff its exclusion check throws; reported under its own name iff not excluded |
| DeploymentFinder.ListItems | src/main/java/com/example/drifter/resource/k8s/DeploymentFinder.java:98-110 | the item loop gives an error iff some exclusion test throws; otherwise the non-excluded items' Resources, in list order |
| DeploymentFinder.FindByTags | src/main/java/com/example/drifter/resource/k8s/DeploymentFinder.java:81-116 | no tags means no query and no results; a failed list is an error; a null item list gives no results; otherwise the non-excluded items in list order |
| DeploymentFinder.FindResources | src/main/java/com/example/drifter/resource/k8s/DeploymentFinder.java:34-47 | a non-empty include list selects name lookup, otherwise tag lookup; any exception gives the empty list |
| DeploymentFinder.IncludeNeverLists | src/main/java/com/example/drifter/resource/k8s/DeploymentFinder.java:37-38 | with an include list the list API plays no part |
| DeploymentFinder.NoTagsFindsNothing | src/main/java/com/example/drifter/resource/k8s/DeploymentFinder.java:84-86 | without include and with null or empty tags the result is empty |
| DeploymentFinder.ListFailureFindsNothing | src/main/java/com/example/drifter/resource/k8s/DeploymentFinder.java:110-113 | a failed list call ends in the empty list |
| DeploymentFinder.NameLookupReportsRequested | src/main/java/com/example/drifter/resource/k8s/DeploymentFinder.java:52-66 | every reported Resource is a Deployment with a requested, non-excluded, found name and that deployment's version |
| DeploymentFinder.FailedLookupSkipsOnlyThatName | src/main/java/com/example/drifter/resource/k8s/DeploymentFinder.java:69-75 | a 404 or other API error on a non-excluded name anywhere in the list gives the result of the list without that name: the loop goes on past it |
| LambdaFinder.ExtractVersion | src/main/java/com/example/drifter/resource/lambda/LambdaFinder.java:73-80 | the reported version is never empty: a non-empty `version` tag's value, "N/A" for null tags or a missing or empty tag |
| LambdaFinder.LookupName | src/main/java/com/example/drifter/resource/lambda/LambdaFinder.java:46-67 | one iteration: throws iff the exclusion check throws or a non-SDK error escapes; reports the function iff not excluded and found |
| LambdaFinder.FindByName | src/main/java/com/example/drifter/resource/lambda/LambdaFinder.java:42-71 | the loop computes the name lookup: an error iff some name throws, else the kept names' Resources in order |
| LambdaFinder.FindResources | src/main/java/com/example/drifter/resource/lambda/LambdaFinder.java:29-40 | name lookup with a non-empty include list, otherwise the empty list |
| LambdaFinder.NoIncludeFindsNothing | src/main/java/com/example/drifter/resource/lambda/LambdaFinder.java:31-38 | a null or empty include list gives the empty list |
| LambdaFinder.ReportsKeptNamesInOrder | src/main/java/com/example/drifter/resource/lambda/LambdaFinder.java:45-60 | the output names are exactly the kept subsequence of the input, in order, all of type Lambda, none excluded |
| LambdaFinder.FailedLookupSkipsOnlyThatName | src/main/java/com/example/drifter/resource/lambda/LambdaFinder.java:63-67 | a not-found or SDK error on a non-excluded name anywhere in the list gives the result of the list without that name: the loop goes on past it |
| LambdaFinder.FoundNameAddsOne | src/main/java/com/example/drifter/resource/lambda/LambdaFinder.java:56-61 | a found, non-excluded name adds exactly its Resource at the end |
| DrifterApplication.Header | src/main/java/com/example/drifter/DrifterApplication.java:238-243 | `#`, `TYPE`, `NAME`, then each environment name upper-cased in configured order |
| DrifterApplication.PrintHeader | src/main/java/com/example/drifter/DrifterApplication.java:238-243 | the header loop builds `Header` |
| DrifterApplication.RowVersions | src/main/java/com/example/drifter/DrifterApplication.java:267-269 | one version per environment: its own, or "N/A" when the environment lacks the resource |
| DrifterApplication.DriftCells | src/main/java/com/example/drifter/DrifterApplication.java:266-273 | one cell per environment, marked drifted iff the versions seen so far are not all the same |
| DrifterApplication.DriftRow | src/main/java/com/example/drifter/DrifterApplication.java:265-274 | the loop that grows the set of seen versions gives `DriftCells` |
| DrifterApplication.DriftedIffDiffersFromFirst | src/main/java/com/example/drifter/DrifterApplication.java:266-272 | a cell is drifted iff some cell up to it differs from the first |
| DrifterApplication.FirstNeverDrifted | src/main/java/com/example/drifter/DrifterApplication.java:272 | the first environment's cell is never drifted |
| DrifterApplication.DriftPersists | src/main/java/com/example/drifter/DrifterApplication.java:270-272 | once a cell is drifted, every later cell is |
| DrifterApplication.MissingEnvironmentDrifts | src/main/java/com/example/drifter/DrifterApplication.java:268-270 | a missing environment after one with a version is drifted ("N/A" counts as a version) |
| DrifterApplication.DriftExamples | src/main/java/com/example/drifter/DrifterApplication.java:266-273 | 1.0.0,1.0.0,2.0.0 drifts only at the end; 2.0.0,1.0.0,1.0.0 drifts from the second cell on |
| DrifterApplication.Put | src/main/java/com/example/drifter/DrifterApplication.java:250-251 | `computeIfAbsent(..).put`: the (name, env) entry is the resource, every other entry is unchanged, and the name becomes a key |
| DrifterApplication.GroupByName | src/main/java/com/example/drifter/DrifterApplication.java:246-253 | the nested loop builds `Grouped` |
| DrifterApplication.GroupEnvLookup | src/main/java/com/example/drifter/DrifterApplication.java:249-251 | after one environment, (name, env) holds the last same-named resource of that environment, and everything else is as before |
| DrifterApplication.GroupedNonEmpty | src/main/java/com/example/drifter/DrifterApplication.java:250-251 | every grouped name has at least one environment |
| DrifterApplication.GroupEnvKeys | src/main/java/com/example/drifter/DrifterApplication.java:249-251 | a name is a key after an environment iff it was before or that environment has it |
| DrifterApplication.GroupedLookup | src/main/java/com/example/drifter/DrifterApplication.java:247-253 | with distinct environments, (name, env) is present iff that environment has the name, and it holds its last resource of that name |
| DrifterApplication.GroupedAbsent | src/main/java/com/example/drifter/DrifterApplication.java:247-253 | an environment without results has no entry |
| DrifterApplication.PrintRow | src/main/java/com/example/drifter/DrifterApplication.java:257-275 | a row carries its counter, a type taken from one of its environments, its name and the drift cells |
| DrifterApplication.OutputTable | src/main/java/com/example/drifter/DrifterApplication.java:237-277 | the header, then exactly one row per grouped name, in the map's order, numbered from 1, no name twice |
| DrifterApplication.IndexOfName | src/main/java/com/example/drifter/DrifterApplication.java:222-226 | the first row with the name, or none when no row has it |
| DrifterApplication.FindOrCreateResourceMap | src/main/java/com/example/drifter/DrifterApplication.java:221-235 | returns the existing row unchanged, or appends exactly one new row with empty versions; distinct names stay distinct |
| DrifterApplication.OutputJson | src/main/java/com/example/drifter/DrifterApplication.java:207-213 | the loops build `JsonRows` |
| DrifterApplication.AddRowAgrees | src/main/java/com/example/drifter/DrifterApplication.java:210-212 | recording one resource keeps the rows in agreement with the grouping |
| DrifterApplication.AddToExistingRowAgrees | src/main/java/com/example/drifter/DrifterApplication.java:210-212 | the same, when the row exists |
| DrifterApplication.UpdateRowAgrees | src/main/java/com/example/drifter/DrifterApplication.java:211-212 | putting the version into an existing row matches putting the resource into the grouping |
| DrifterApplication.AddNewRowAgrees | src/main/java/com/example/drifter/DrifterApplication.java:228-232 | the same, when a new row is created |
| DrifterApplication.JsonEnvAgrees | src/main/java/com/example/drifter/DrifterApplication.java:209-213 | one environment's resources keep the agreement |
| DrifterApplication.JsonRowsAgree | src/main/java/com/example/drifter/DrifterApplication.java:207-213 | the JSON rows have distinct names, one per grouped name, each with versions from its grouped environments |
| DrifterApplication.JsonRowVersions | src/main/java/com/example/drifter/DrifterApplication.java:207-213 | with distinct environments, a row's versions map has an environment iff it has that name, with that environment's (last) version |
| DrifterApplication.JsonRowEnvironments | src/main/java/com/example/drifter/DrifterApplication.java:207-213 | every environment in a versions map is a configured one |
| ConfigurationReader.GetFileExtension | src/main/java/com/example/drifter/config/ConfigurationReader.java:44-50 | "" without a dot; otherwise the lower-cased text after the last dot, which holds no dot |
| ConfigurationReader.GetMapperForExtension | src/main/java/com/example/drifter/config/ConfigurationReader.java:52-61 | YAML iff the extension is "yaml" or "yml"; JSON for everything else |
| ConfigurationReader.NoExtensionReadsJson | src/main/java/com/example/drifter/config/ConfigurationReader.java:45-48 | a path without a dot is read as JSON |
| ConfigurationReader.UpperCaseExtensionReadsYaml | src/main/java/com/example/drifter/config/ConfigurationReader.java:49 | `config.YML` is read as YAML |
| ConfigurationReader.LastDotDecides | src/main/java/com/example/drifter/config/ConfigurationReader.java:45 | `app.yaml.json` is read as JSON |
| GoConfigReader.ExtToFormat | internal/config/reader.go:21-34 | JSON iff "json"; YAML iff "yaml" or "yml"; anything else is Unknown, case-sensitively |
| GoConfigReader.Ext | internal/config/reader.go:37 | `filepath.Ext`: empty, or a dot-initial suffix of the path with no other dot and no slash |
| GoConfigReader.ExtOfSuffix | internal/config/reader.go:37 | a path ending in a dot followed by neither dot nor slash has exactly that ending as its extension |
| GoConfigReader.FormatOfExtension | internal/config/reader.go:36-38 | a path ending in `.e`, with no dot or slash in `e`, is read in the format the table gives `e` |
| GoConfigReader.DecoderFor | internal/config/reader.go:55-66 | the YAML decoder iff the format is YAML |
| GoConfigReader.UpperCaseExtensionIsUnknown | internal/config/reader.go:27-34 | "YML" is Unknown and is decoded as JSON |
| GoConfigReader.DirectoryDotIsNotExtension | internal/config/reader.go:37 | `conf.d/app` has no extension |
| GoConfigReader.YamlFileExample | internal/config/reader.go:37-38 | `config/app.yml` has extension ".yml" and is decoded as YAML |
| GoMain.Rewritten | main.go:165-189 | the rewritten slice has the input's length |
| GoMain.DetectDrift | main.go:165-189 | rewrites the array in place to `Rewritten` of its old contents and reports `HasDrift` |
| GoMain.EmptyFirstDrifts | main.go:167-170 | an empty first version drifts and becomes "NOT FOUND" |
| GoMain.EmptyLaterDoesNotDrift | main.go:174-177 | empty later versions become "❗ NOT FOUND" and do not cause drift |
| GoMain.MarksDiffer | main.go:179-185 | the cross, check and missing marks start with different characters |
| GoMain.DriftIffCrossMark | main.go:172-186 | drift iff the first version is empty or some later cell carries the cross mark |
| GoMain.JoinEnvs | main.go:154-163 | the builder loop gives the upper-cased names joined by the separator |
| GoMain.JoinEnvsColumns | main.go:132 | upper-casing the tab-joined names equals joining the upper-cased names |
| GoMain.AppendAllVersions | main.go:138-140 | appending one environment's resources extends a name's versions by that environment's versions of it |
| GoMain.CollectedVersions | main.go:135-141 | a name's collected versions are its versions across the environments, in configured order |
| GoMain.NamedVersionsNonEmpty | main.go:138-140 | a name present in an environment contributes at least one version |
| GoMain.VersionsAcrossGrows | main.go:135-141 | a name's collected versions hold at least its versions in the first environment |
| GoMain.FirstEnvCovered | main.go:135-143 | every first-environment resource has a non-empty version slice, so `detectDrift` may be called on it |
| GoMain.DetectStored | main.go:144 | `detectDrift` on the slice stored in the map: returns its rewrite and the drift flag, and the map now holds the rewrite |
| GoMain.AppendEnvironment | main.go:138-140 | the inner loop appends each resource's version to its name's slice, in order |
| GoMain.CollectVersions | main.go:135-141 | the outer loop gives the collection over all environments in configured order |
| GoMain.EmitRows | main.go:143-149 | the row loop emits, in order, a numbered row for each first-environment resource whose versions drift, writing each rewrite back into the map |
| GoMain.RewrittenCells | main.go:165-189 | a slice whose first cell is the rewritten first version and whose later cells are marked against it is the rewritten slice |
| GoMain.WriteTable | main.go:128-152 | the tab-separated header with the upper-cased environments, then the rows of `TableRows` over the first environment's resources |
| GoMain.RowsNumbered | main.go:145-147 | printed rows are numbered consecutively from 1 |
| GoMain.RowsFromFirstEnv | main.go:143-147 | every printed row names a resource of the first environment, with its type |
| GoMain.OnCopyRowsAreDrifting | main.go:143-149 | corrected: rows are exactly the first-environment resources whose versions drift, with the rewritten cells |
| GoMain.DistinctNamesNoWriteBack | main.go:143-149 | without repeated names in the first environment, the write-back changes nothing |
| GoMain.OnCopyIgnoresOtherNames | main.go:143-149 | corrected rows depend only on the versions of first-environment names |
| GoMain.RepeatedNameReadsRewrittenSlice | main.go:143-144 | a name listed twice with equal versions prints no row on a copy, but one row as written |
| GoMain.LastVersion | main.go:135-141 | corrected: an environment's last version for the name, or "" when it has none |
| GoMain.AlignedVersions | main.go:135-141 | corrected: one version per environment, in column order |
| GoMain.AlignedKeepsColumns | main.go:174-177 | corrected: an environment missing the name shows "❗ NOT FOUND" in its own column |
| GoMain.MissingEnvironmentShiftsColumns | main.go:135-141 | as written, a name missing in the middle environment shifts the later version into its column |
| GoResource.IsExcluded | internal/resource/common.go:24-32 | true iff some expression matches somewhere in the name; false for an empty list |
| GoResource.ExcludedAsRegexp | internal/resource/common.go:34-46 | fails iff some pattern does not compile; on success, one compiled pattern per input, index-aligned |
| GoResource.LiteralPatternMatchesAnywhere | internal/resource/common.go:25-29 | literal "foo" excludes "foo" and "foobar" but not "fo" |
| GoResource.ExclusionMonotone | internal/resource/common.go:24-32 | adding expressions never un-excludes a name |
| GoResource.ExclusionIgnoresOrder | internal/resource/common.go:24-32 | expression order does not matter |
| GoLambdaFinder.TagVersion | internal/resource/lambda/finder.go:53-56 | the reported version is never empty: a non-empty `version` tag's value, else "N/A" |
| GoLambdaFinder.TagVersionAgreesWithJava | internal/resource/lambda/finder.go:53-56 | the Go reader gives the same version as the Java `extractVersion` for every tag map |
| GoLambdaFinder.FindByName | internal/resource/lambda/finder.go:37-66 | the loop gives an error iff some lookup fails other than not-found; otherwise the found names' Resources in order |
| GoLambdaFinder.NameLookupReportsFound | internal/resource/lambda/finder.go:44-62 | on success no lookup failed, and every Resource is a Lambda with a requested, found name and its tag version |
| GoLambdaFinder.ToTagFilters | internal/resource/lambda/finder.go:112-124 | one filter per tag key, in order, carrying that key's values unchanged |
| GoLambdaFinder.ExtractName | internal/resource/lambda/finder.go:126-129 | the field right after the first colon of the ARN resource part, up to the next colon or the end |
| GoLambdaFinder.ExtractNameOfFunctionArn | internal/resource/lambda/finder.go:126-129 | `function:NAME` and `function:NAME:QUALIFIER` both give NAME |
| GoLambdaFinder.TagsVersionIsLast | internal/resource/lambda/finder.go:131-142 | "N/A" without a `version` tag, else the last such tag's value, even an empty one |
| GoLambdaFinder.ExtractVersion | internal/resource/lambda/finder.go:131-142 | the loop computes `TagsVersion`, the value of the last `version` tag |
| GoLambdaFinder.LaterVersionTagWins | internal/resource/lambda/finder.go:131-142 | a later empty `version` tag overrides an earlier one |
| GoLambdaFinder.Paginate | internal/resource/lambda/finder.go:79-93 | the paging loop concatenates the pages in order up to the first empty token; a failed request is an error |
| GoLambdaFinder.PagedFromResponses | internal/resource/lambda/finder.go:84-93 | every gathered mapping comes from one of the responses |
| GoLambdaFinder.KeptSound | internal/resource/lambda/finder.go:95-107 | each reported Resource is a Lambda whose name is not excluded, with the name and version of some mapping |
| GoLambdaFinder.KeptComplete | internal/resource/lambda/finder.go:95-107 | every mapping whose name is not excluded is reported |
| GoLambdaFinder.FindByTag | internal/resource/lambda/finder.go:68-110 | an invalid pattern is an error before any query; a failed page is an error; otherwise the kept mappings of all pages |
| GoLambdaFinder.FindResources | internal/resource/lambda/finder.go:29-35 | name lookup iff include is non-empty, otherwise tag lookup |
| GoLambdaFinder.IncludeIgnoresExclude | internal/resource/lambda/finder.go:30-31 | with an include list, even a non-compiling exclude pattern changes nothing |
| GoLambdaFinder.TagResultsNotExcluded | internal/resource/lambda/finder.go:96-100 | every function found by tag matches no exclude pattern and is named by some gathered mapping |
| GoDeployments.ContainerVersionNone | internal/resource/k8s/deployments.go:39-43 | "N/A" when no container has the deployment's name |
| GoDeployments.ContainerVersionIsLast | internal/resource/k8s/deployments.go:39-43 | otherwise the version of the last container with that name |
| GoDeployments.VersionOfNamed | internal/resource/k8s/deployment_finder.go:47-52 | the container loop computes `ContainerVersion` |
| GoDeployments.Listed | internal/resource/k8s/deployments.go:22-47 | every key is a requested name |
| GoDeployments.ListDeployments | internal/resource/k8s/deployments.go:22-47 | the nested loop builds `Listed`; any failure other than not-found ends the process |
| GoDeployments.ListedMember | internal/resource/k8s/deployments.go:39-43 | a name is a key iff some request of that name is found and has a container of that name |
| GoDeployments.ListedLast | internal/resource/k8s/deployments.go:32-43 | a key holds the version from the last such request |
| GoDeployments.SecondContainerWins | internal/resource/k8s/deployments.go:39-43 | of two containers named like the deployment, the second's version is listed |
| GoDeployments.UnnamedContainerNotListed | internal/resource/k8s/deployments.go:39-43 | a deployment without a container of its own name is absent |
| GoDeploymentFinder.MatchLabelsKeys | internal/resource/k8s/deployment_finder.go:106-110 | the match labels are exactly the keys with one value |
| GoDeploymentFinder.ExpressionsMembers | internal/resource/k8s/deployment_finder.go:112-117 | the `In` requirements are exactly one per key whose value count is not one, carrying all its values |
| GoDeploymentFinder.LabelSelector | internal/resource/k8s/deployment_finder.go:102-121 | the loop fills the match labels and requirements as above |
| GoDeploymentFinder.SelectorPartition | internal/resource/k8s/deployment_finder.go:102-118 | with distinct keys, each key is in exactly one half: a match label `key=value` iff it has one value, an `In` requirement otherwise |
| GoDeploymentFinder.ByNameMeaning | internal/resource/k8s/deployment_finder.go:32-58 | corrected: succeeds iff every lookup is found or not found, and then gives the found names' Resources in order |
| GoDeploymentFinder.FirstFailureDecides | internal/resource/k8s/deployment_finder.go:34-42 | the first failing lookup decides: another status reason is an error, another error type ends the process |
| GoDeploymentFinder.LookupAll | internal/resource/k8s/deployment_finder.go:32-59 | the loop appends the lookup's Resources to the initial contents, or stops with its error |
| GoDeploymentFinder.FindByNameAsWritten | internal/resource/k8s/deployment_finder.go:30-62 | as written: `len(names)` zero Resources come before the results |
| GoDeploymentFinder.FindByName | internal/resource/k8s/deployment_finder.go:30-62 | corrected: starts from an empty output |
| GoDeploymentFinder.PreSizedOutputHasBlankRows | internal/resource/k8s/deployment_finder.go:31 | as written, a name that does not exist yields a blank Resource; corrected, nothing |
| GoDeploymentFinder.AsWrittenShiftsResults | internal/resource/k8s/deployment_finder.go:31 | as written, the real results follow `len(names)` blank entries |
| GoDeploymentFinder.ContainerRowsSound | internal/resource/k8s/deployment_finder.go:89-96 | at most one Resource per container; each is a Deployment named after its deployment, from a container whose name is not excluded |
| GoDeploymentFinder.RowsSound | internal/resource/k8s/deployment_finder.go:83-97 | every Resource names a listed deployment and comes from one of its non-excluded containers |
| GoDeploymentFinder.RowsComplete | internal/resource/k8s/deployment_finder.go:83-97 | every non-excluded container of a listed deployment gives its Resource |
| GoDeploymentFinder.FindByLabel | internal/resource/k8s/deployment_finder.go:64-100 | an invalid pattern or a failed list is an error; otherwise the rows of the listed deployments |
| GoDeploymentFinder.FindResources | internal/resource/k8s/deployment_finder.go:22-28 | name lookup (as written) iff include is non-empty, ignoring exclude; otherwise label lookup |
| GoDeploymentFinder.ExclusionTestsContainerNames | internal/resource/k8s/deployment_finder.go:90 | a pattern matching only the deployment's name drops nothing; a pattern matching a container's name drops that container |

## Left out

- Concurrency is left out: `CompletableFuture` fan-out, the synchronized put, goroutines, the mutex and the wait group. Per-environment results are given, as if built one after another.
- Cloud and cluster clients are left out: credentials, assume-role, EKS describe, and building the Kubernetes client. The lookup and list calls are given functions.
- File reading and JSON or YAML decoding are left out. So are JSON pretty-printing, `printf` padding and `tabwriter` layout. The model keeps the cell values and marks, not the bytes.
- The regex engine for exclude patterns is left out. It is an abstract (compiles, matches) pair.
- `arn.Parse` is left out. `GoLambdaFinder` takes the ARN's resource part as given.
- `metaV1.FormatLabelSelector` is left out. `GoDeploymentFinder.LabelSelector` returns the selector before formatting.
- The Go Lambda tag API's pages are a given sequence of responses. The tag filters sent with each request do not determine them in the model.
- Java `HashMap` and Go map iteration orders are unspecified. They are given sequences of entries. `DrifterApplication.PrintRow` may take the type from any environment; which one is not asserted.
- The Java `resourceVersions` map in `outputJson` (DrifterApplication.java lines 196-204) is built but never read. It is not modelled.
- The orchestration is not modelled: `processEnvironment`, `main`, command-line parsing, `readFile`/`ReadFile`, and `getResources`.
- Null tag values, null list items and null deployment metadata are left out. Nulls are modelled only where the code tests for them.
- `DrifterApplication.FindOrCreateResourceMap`: returns the row's index rather than a reference to the mutable map. The caller's write through that reference is an update of the row at that index.
- Upper- and lower-casing are ASCII-only, while Java `toUpperCase`/`toLowerCase` and Go `strings.ToUpper` cover all of Unicode.
- `GoLambdaFinder.FindByTag`: requires every mapping's ARN resource part to contain a colon. The source panics otherwise.
- `GoLambdaFinder.Paginate`: requires that the responses end, with an error or an empty token. Pagination that never ends is not modelled.
- `GoDeploymentFinder.SelectorPartition`: assumes distinct keys, as a Go map has.
- `GoDeployments.ListDeployments` and the Go finders end the process (`Fatal`) only where `log.Fatal` is in the code shown. The client construction's `log.Fatal` calls are not modelled.
- `GoMain.WriteTable`: keeps the as-written column order (see Findings). The corrected `GoMain.AlignedVersions` is proved on its own and is not wired into the table.
- `GoMain.WriteTable` and `GoMain.JoinEnvs`: require at least one environment. With none, `joinEnvs` panics at `e[:l-1]` (main.go line 157) and `envs[0]` (main.go line 143) would panic too; the panic is not modelled.
- `GoDeploymentFinder.FindResources`: uses the as-written `findByName` (see Findings). The corrected `GoDeploymentFinder.FindByName` is proved on its own.

## Findings

| source | as written | input that shows it | evidently intended | confidence | as-written member | corrected member |
|---|---|---|---|---|---|---|
| internal/resource/k8s/deployment_finder.go:31 | `out := make([]resource.Resource, len(names))` followed by `append`, so the result starts with `len(names)` zero Resources | include ["web"] where "web" does not exist: one Resource with empty type, name and version | an empty output slice, giving only the found deployments | high (not executed) | GoDeploymentFinder.PreSizedOutputHasBlankRows | GoDeploymentFinder.ByNameMeaning |
| main.go:135-141 | versions are appended per name only for environments that have it, so a missing middle environment shifts later versions one column left | environments dev, prod, stage; "app" 1.0.0 in dev and 2.0.0 in stage: prod's column shows "❌ 2.0.0" and stage's column is empty | one slot per environment, with "" (shown as "❗ NOT FOUND") where a name is missing, as the Java port does with "N/A" | medium (not executed) | GoMain.MissingEnvironmentShiftsColumns | GoMain.AlignedKeepsColumns |
| main.go:143-144 | `detectDrift` rewrites the slice stored in the map in place, so a name listed twice in the first environment is checked again against already-marked strings | first environment lists "app" twice, both 1.0.0: the second check compares "1.0.0" with "✅ 1.0.0" and prints a drift row | each check works on the collected versions, so equal versions never drift | medium (not executed) | GoMain.RepeatedNameReadsRewrittenSlice | GoMain.OnCopyRowsAreDrifting |
