/**
 * `DrifterApplication` (Java): the table and JSON reports. The per-environment
 * results arrive as the entries of a map, in its iteration order; printing
 * widths are not modelled, only the cell values.
 */
module DrifterApplication {
  import opened Model
  import opened Strings

  /** The header cells: `#`, `TYPE`, `NAME`, then each environment name upper-cased, in configured order. */
  function Header(envNames: seq<string>): (r: seq<string>)
    ensures |r| == 3 + |envNames|
    ensures r[..3] == ["#", "TYPE", "NAME"]
    ensures forall i :: 0 <= i < |envNames| ==> r[3 + i] == ToUpper(envNames[i])
  {
    ["#", "TYPE", "NAME"] + seq(|envNames|, i requires 0 <= i < |envNames| => ToUpper(envNames[i]))
  }

  const DriftMark := "\U{274C} "
  const NoDriftMark := "\U{2705} \U{FE0F}"

  /** One version cell of a row: its mark and the version shown. */
  datatype Cell = Cell(drifted: bool, version: string)

  /** The text printed for a cell, before padding. */
  function CellText(c: Cell): string {
    (if c.drifted then DriftMark else NoDriftMark) + c.version
  }

  /** The version an environment shows for a resource: its own, or "N/A" when it lacks it. */
  function VersionIn(envVersions: map<string, Resource>, env: string): string {
    if env in envVersions then envVersions[env].version else NotAvailable
  }

  /** The versions of a row, one per environment, in configured order. */
  function RowVersions(envs: seq<string>, envVersions: map<string, Resource>): (vs: seq<string>)
    ensures |vs| == |envs|
    ensures forall i :: 0 <= i < |envs| ==> vs[i] == VersionIn(envVersions, envs[i])
  {
    seq(|envs|, i requires 0 <= i < |envs| => VersionIn(envVersions, envs[i]))
  }

  /** The distinct versions among the first `n` of `vs`. */
  function SeenVersions(vs: seq<string>, n: nat): set<string>
    requires n <= |vs|
  {
    if n == 0 then {} else SeenVersions(vs, n - 1) + {vs[n - 1]}
  }

  /** The seen versions are exactly the versions among the first `n`. */
  lemma {:induction false} SeenMember(vs: seq<string>, n: nat, x: string)
    requires n <= |vs|
    ensures x in SeenVersions(vs, n) <==> exists j :: 0 <= j < n && vs[j] == x
  {
    if n > 0 {
      SeenMember(vs, n - 1, x);
    }
  }

  /** A cell is drifted when the versions seen so far, this one included, are not all the same. */
  predicate DriftedAt(vs: seq<string>, i: nat)
    requires i < |vs|
  {
    |SeenVersions(vs, i + 1)| > 1
  }

  /**
   * The drift loop of `outputTable` for one resource: grows the set of
   * versions seen so far and marks each cell by the size of that set.
   */
  method DriftRow(envs: seq<string>, envVersions: map<string, Resource>) returns (cells: seq<Cell>)
    ensures cells == DriftCells(envs, envVersions)
  {
    var uniqueVersions: set<string> := {};
    cells := [];
    for i := 0 to |envs|
      invariant uniqueVersions == SeenVersions(RowVersions(envs, envVersions), i)
      invariant cells == DriftCells(envs, envVersions)[..i]
    {
      var version := if envs[i] in envVersions then envVersions[envs[i]].version else NotAvailable;
      DriftStep(envs, envVersions, i, uniqueVersions);
      uniqueVersions := uniqueVersions + {version};
      cells := cells + [Cell(|uniqueVersions| > 1, version)];
    }
    assert DriftCells(envs, envVersions)[..|envs|] == DriftCells(envs, envVersions);
  }

  /** The set of seen versions grows by exactly the next version, whose size decides the next cell. */
  lemma DriftStep(envs: seq<string>, envVersions: map<string, Resource>, i: nat, seen: set<string>)
    requires i < |envs| && seen == SeenVersions(RowVersions(envs, envVersions), i)
    ensures SeenVersions(RowVersions(envs, envVersions), i + 1) == seen + {VersionIn(envVersions, envs[i])}
    ensures DriftCells(envs, envVersions)[..i + 1]
      == DriftCells(envs, envVersions)[..i] + [Cell(|seen + {VersionIn(envVersions, envs[i])}| > 1, VersionIn(envVersions, envs[i]))]
  {
    var cells := DriftCells(envs, envVersions);
    assert cells[..i + 1] == cells[..i] + [cells[i]];
  }

  /** The cells of a row: each environment's version, marked by `DriftedAt`. */
  function DriftCells(envs: seq<string>, envVersions: map<string, Resource>): (cells: seq<Cell>)
    ensures |cells| == |envs|
    ensures forall i :: 0 <= i < |envs| ==>
      cells[i] == Cell(DriftedAt(RowVersions(envs, envVersions), i), VersionIn(envVersions, envs[i]))
  {
    var vs := RowVersions(envs, envVersions);
    seq(|envs|, i requires 0 <= i < |envs| => Cell(DriftedAt(vs, i), vs[i]))
  }

  /** A cell is drifted exactly when some version up to it differs from the first environment's. */
  lemma DriftedIffDiffersFromFirst(vs: seq<string>, i: nat)
    requires i < |vs|
    ensures DriftedAt(vs, i) <==> exists j :: 0 <= j <= i && vs[j] != vs[0]
  {
    var seen := SeenVersions(vs, i + 1);
    if exists j :: 0 <= j <= i && vs[j] != vs[0] {
      var j :| 0 <= j <= i && vs[j] != vs[0];
      SeenMember(vs, i + 1, vs[0]);
      SeenMember(vs, i + 1, vs[j]);
      assert {vs[0], vs[j]} <= seen;
      assert |{vs[0], vs[j]}| == 2;
      SubsetCard({vs[0], vs[j]}, seen);
    } else {
      forall x | x in seen
        ensures x == vs[0]
      {
        SeenMember(vs, i + 1, x);
      }
      SeenMember(vs, i + 1, vs[0]);
      assert seen == {vs[0]};
    }
  }

  lemma SubsetCard(a: set<string>, b: set<string>)
    requires a <= b
    ensures |a| <= |b|
  {
    assert b == a + (b - a);
  }

  /** The first configured environment's cell is never drifted. */
  lemma FirstNeverDrifted(vs: seq<string>)
    requires |vs| > 0
    ensures !DriftedAt(vs, 0)
  {
    assert SeenVersions(vs, 1) == {vs[0]};
  }

  /** Once a cell is drifted, every later cell of the row is drifted too: the set only grows. */
  lemma DriftPersists(vs: seq<string>, i: nat, k: nat)
    requires i <= k < |vs|
    requires DriftedAt(vs, i)
    ensures DriftedAt(vs, k)
  {
    var early, late := SeenVersions(vs, i + 1), SeenVersions(vs, k + 1);
    forall x | x in early
      ensures x in late
    {
      SeenMember(vs, i + 1, x);
      SeenMember(vs, k + 1, x);
    }
    SubsetCard(early, late);
  }

  /**
   * An environment that lacks the resource shows "N/A", which counts as a
   * version of its own: next to a real version it marks drift.
   */
  lemma MissingEnvironmentDrifts(envs: seq<string>, envVersions: map<string, Resource>, i: nat)
    requires 0 < i < |envs|
    requires envs[0] in envVersions && envVersions[envs[0]].version != NotAvailable
    requires envs[i] !in envVersions
    ensures DriftedAt(RowVersions(envs, envVersions), i)
  {
    DriftedIffDiffersFromFirst(RowVersions(envs, envVersions), i);
  }

  /** Versions v1, v1, v2 are marked clean, clean, drifted; v2, v1, v1 are marked clean, drifted, drifted. */
  lemma DriftExamples(vs: seq<string>, ws: seq<string>)
    requires vs == ["1.0.0", "1.0.0", "2.0.0"]
    requires ws == ["2.0.0", "1.0.0", "1.0.0"]
    ensures !DriftedAt(vs, 0) && !DriftedAt(vs, 1) && DriftedAt(vs, 2)
    ensures !DriftedAt(ws, 0) && DriftedAt(ws, 1) && DriftedAt(ws, 2)
  {
    assert vs[2][0] != vs[0][0];
    assert ws[1][0] != ws[0][0];
    DriftedIffDiffersFromFirst(vs, 0);
    DriftedIffDiffersFromFirst(vs, 1);
    DriftedIffDiffersFromFirst(vs, 2);
    DriftedIffDiffersFromFirst(ws, 0);
    DriftedIffDiffersFromFirst(ws, 1);
    DriftedIffDiffersFromFirst(ws, 2);
  }

  /** One entry of the environment-to-resources map. */
  datatype EnvResult = EnvResult(env: string, resources: seq<Resource>)

  /** The entries come from a map, so no environment occurs twice. */
  predicate DistinctEnvs(entries: seq<EnvResult>) {
    forall i, j :: 0 <= i < j < |entries| ==> entries[i].env != entries[j].env
  }

  /** name -> environment -> resource, the `resourcesByName` map. */
  type ByName = map<string, map<string, Resource>>

  predicate In(g: ByName, name: string, env: string) {
    name in g && env in g[name]
  }

  /** `computeIfAbsent(name, ...).put(env, resource)`. */
  function Put(g: ByName, env: string, r: Resource): (g': ByName)
    ensures In(g', r.name, env) && g'[r.name][env] == r
    ensures forall n, e :: (n, e) != (r.name, env) ==>
      (In(g', n, e) <==> In(g, n, e)) && (In(g, n, e) ==> g'[n][e] == g[n][e])
    ensures g'.Keys == g.Keys + {r.name}
  {
    g[r.name := (if r.name in g then g[r.name] else map[])[env := r]]
  }

  /** The grouping after the resources of one environment. */
  function GroupEnv(g: ByName, env: string, rs: seq<Resource>): ByName
    decreases |rs|
  {
    if rs == [] then g else Put(GroupEnv(g, env, rs[..|rs| - 1]), env, rs[|rs| - 1])
  }

  /** The grouping after all entries, in iteration order. */
  function Grouped(entries: seq<EnvResult>): ByName
    decreases |entries|
  {
    if entries == [] then map[]
    else
      var last := entries[|entries| - 1];
      GroupEnv(Grouped(entries[..|entries| - 1]), last.env, last.resources)
  }

  /** The grouping loop of `outputTable`. */
  method GroupByName(entries: seq<EnvResult>) returns (byName: ByName)
    ensures byName == Grouped(entries)
  {
    byName := map[];
    for i := 0 to |entries|
      invariant byName == Grouped(entries[..i])
    {
      assert entries[..i + 1][..i] == entries[..i];
      var env, rs := entries[i].env, entries[i].resources;
      for j := 0 to |rs|
        invariant byName == GroupEnv(Grouped(entries[..i]), env, rs[..j])
      {
        assert rs[..j + 1][..j] == rs[..j];
        var resource := rs[j];
        var envVersions := if resource.name in byName then byName[resource.name] else map[];
        byName := byName[resource.name := envVersions[env := resource]];
      }
      assert rs[..|rs|] == rs;
    }
    assert entries[..|entries|] == entries;
  }

  /** The last resource of `rs` named `name`, if any. */
  function LastNamed(rs: seq<Resource>, name: string): (r: Option<Resource>)
    ensures r.Some? ==> r.value in rs && r.value.name == name
    ensures r.None? ==> forall x :: x in rs ==> x.name != name
    decreases |rs|
  {
    if rs == [] then None
    else if rs[|rs| - 1].name == name then Some(rs[|rs| - 1])
    else LastNamed(rs[..|rs| - 1], name)
  }

  /** Grouping one environment's resources records, under `env`, the last resource of each name. */
  lemma {:induction false} GroupEnvLookup(g: ByName, env: string, rs: seq<Resource>, n: string, e: string)
    ensures var g' := GroupEnv(g, env, rs);
      if e == env && LastNamed(rs, n).Some? then In(g', n, e) && g'[n][e] == LastNamed(rs, n).value
      else (In(g', n, e) <==> In(g, n, e)) && (In(g, n, e) ==> g'[n][e] == g[n][e])
    decreases |rs|
  {
    if rs != [] {
      GroupEnvLookup(g, env, rs[..|rs| - 1], n, e);
    }
  }

  /** Every name of the grouping has at least one environment. */
  lemma {:induction false} GroupedNonEmpty(entries: seq<EnvResult>, n: string)
    requires n in Grouped(entries)
    ensures exists e :: In(Grouped(entries), n, e)
    decreases |entries|
  {
    var init := entries[..|entries| - 1];
    var last := entries[|entries| - 1];
    if n in Grouped(init) {
      GroupedNonEmpty(init, n);
      var e :| In(Grouped(init), n, e);
      GroupEnvLookup(Grouped(init), last.env, last.resources, n, e);
      if !(e == last.env && LastNamed(last.resources, n).Some?) {
        assert In(Grouped(entries), n, e);
      }
    } else {
      GroupEnvKeys(Grouped(init), last.env, last.resources, n);
      GroupEnvLookup(Grouped(init), last.env, last.resources, n, last.env);
    }
  }

  /** A name not yet grouped is added by an environment exactly when that environment has it. */
  lemma {:induction false} GroupEnvKeys(g: ByName, env: string, rs: seq<Resource>, n: string)
    ensures n in GroupEnv(g, env, rs) <==> n in g || LastNamed(rs, n).Some?
    decreases |rs|
  {
    if rs != [] {
      GroupEnvKeys(g, env, rs[..|rs| - 1], n);
    }
  }

  /**
   * With distinct environments, the grouping holds a resource under name `n`
   * and environment `e` exactly when `e`'s list has one named `n`, and it is
   * the last such: a later same-named resource overwrites an earlier one.
   */
  lemma {:induction false} GroupedLookup(entries: seq<EnvResult>, k: nat, n: string)
    requires DistinctEnvs(entries)
    requires k < |entries|
    ensures var g := Grouped(entries); var e := entries[k].env;
      (In(g, n, e) <==> LastNamed(entries[k].resources, n).Some?) &&
      (In(g, n, e) ==> g[n][e] == LastNamed(entries[k].resources, n).value)
    decreases |entries|
  {
    var init := entries[..|entries| - 1];
    var last := entries[|entries| - 1];
    GroupEnvLookup(Grouped(init), last.env, last.resources, n, entries[k].env);
    if k < |entries| - 1 {
      assert init[k] == entries[k];
      GroupedLookup(init, k, n);
    } else {
      GroupedAbsent(init, last.env, n);
    }
  }

  /** An environment not among the entries has nothing in the grouping. */
  lemma {:induction false} GroupedAbsent(entries: seq<EnvResult>, e: string, n: string)
    requires forall k :: 0 <= k < |entries| ==> entries[k].env != e
    ensures !In(Grouped(entries), n, e)
    decreases |entries|
  {
    if entries != [] {
      var init := entries[..|entries| - 1];
      var last := entries[|entries| - 1];
      GroupedAbsent(init, e, n);
      GroupEnvLookup(Grouped(init), last.env, last.resources, n, e);
    }
  }

  /** One printed row of the table. */
  datatype TableRow = TableRow(counter: int, kind: string, name: string, cells: seq<Cell>)

  /** The header line of `outputTable`. */
  method PrintHeader(envs: seq<string>) returns (header: seq<string>)
    ensures header == Header(envs)
  {
    header := ["#", "TYPE", "NAME"];
    for i := 0 to |envs|
      invariant header == Header(envs[..i])
    {
      HeaderStep(envs, i);
      header := header + [ToUpper(envs[i])];
    }
    assert envs[..|envs|] == envs;
  }

  lemma HeaderStep(envs: seq<string>, i: nat)
    requires i < |envs|
    ensures Header(envs[..i + 1]) == Header(envs[..i]) + [ToUpper(envs[i])]
  {
    var longer, shorter := Header(envs[..i + 1]), Header(envs[..i]) + [ToUpper(envs[i])];
    assert |longer| == |shorter|;
    forall k | 0 <= k < |longer|
      ensures longer[k] == shorter[k]
    {
      if k >= 3 {
        assert envs[..i + 1][k - 3] == envs[k - 3];
      }
    }
  }

  /** `row` is the table row numbered `counter` for `name`, whose environments are `envVersions`. */
  predicate IsRow(row: TableRow, counter: int, name: string, envs: seq<string>, envVersions: map<string, Resource>) {
    && row.counter == counter
    && row.name == name
    && (exists e :: e in envVersions && row.kind == envVersions[e].kind)
    && row.cells == DriftCells(envs, envVersions)
  }

  /** One iteration of the row loop of `outputTable`. */
  method PrintRow(counter: int, name: string, envs: seq<string>, envVersions: map<string, Resource>) returns (row: TableRow)
    requires |envVersions| > 0
    ensures IsRow(row, counter, name, envs, envVersions)
  {
    var anyEnv :| anyEnv in envVersions;
    var kind := envVersions[anyEnv].kind;
    var cells := DriftRow(envs, envVersions);
    row := TableRow(counter, kind, name, cells);
  }

  /**
   * `outputTable`: the header, then one row per grouped name in `order` (the
   * map's iteration order, so no name twice), numbered from 1; the type is that of the
   * resource in some environment, the one the iterator yields first.
   */
  method OutputTable(envs: seq<string>, entries: seq<EnvResult>, order: seq<string>) returns (header: seq<string>, rows: seq<TableRow>)
    requires forall n :: n in order <==> n in Grouped(entries)
    requires forall i, j :: 0 <= i < j < |order| ==> order[i] != order[j]
    ensures header == Header(envs)
    ensures |rows| == |order|
    ensures forall i :: 0 <= i < |order| ==> IsRow(rows[i], i + 1, order[i], envs, Grouped(entries)[order[i]])
    ensures forall i, j :: 0 <= i < j < |rows| ==> rows[i].name != rows[j].name
  {
    header := PrintHeader(envs);
    var resourcesByName := GroupByName(entries);
    var counter := 1;
    rows := [];
    for i := 0 to |order|
      invariant counter == i + 1
      invariant |rows| == i
      invariant forall k :: 0 <= k < i ==> IsRow(rows[k], k + 1, order[k], envs, resourcesByName[order[k]])
    {
      var resourceName := order[i];
      GroupedNonEmpty(entries, resourceName);
      var envVersions := resourcesByName[resourceName];
      assert |envVersions| > 0;
      var row := PrintRow(counter, resourceName, envs, envVersions);
      RowsGrow(rows, row, order, envs, resourcesByName);
      rows := rows + [row];
      counter := counter + 1;
    }
  }

  /** Appending the next row keeps every row numbered and filled for its name. */
  lemma RowsGrow(rows: seq<TableRow>, row: TableRow, order: seq<string>, envs: seq<string>, g: ByName)
    requires |rows| < |order| && forall n :: n in order ==> n in g
    requires forall k :: 0 <= k < |rows| ==> IsRow(rows[k], k + 1, order[k], envs, g[order[k]])
    requires IsRow(row, |rows| + 1, order[|rows|], envs, g[order[|rows|]])
    ensures forall k :: 0 <= k < |rows| + 1 ==> IsRow((rows + [row])[k], k + 1, order[k], envs, g[order[k]])
  {
    forall k | 0 <= k < |rows| + 1
      ensures IsRow((rows + [row])[k], k + 1, order[k], envs, g[order[k]])
    {
      if k < |rows| {
        assert (rows + [row])[k] == rows[k];
      }
    }
  }

  /** One element of the JSON output list: `name`, `type` and the `versions` map. */
  datatype JsonRow = JsonRow(name: string, kind: string, versions: map<string, string>)

  /** The position of the first row named `name`, if any. */
  function IndexOfName(rows: seq<JsonRow>, name: string): (r: Option<nat>)
    ensures r.Some? ==>
      && r.value < |rows|
      && rows[r.value].name == name
      && (forall j :: 0 <= j < r.value ==> rows[j].name != name)
    ensures r.None? ==> forall j :: 0 <= j < |rows| ==> rows[j].name != name
    decreases |rows|
  {
    if rows == [] then None
    else if rows[0].name == name then Some(0)
    else match IndexOfName(rows[1..], name)
      case None => None
      case Some(k) => Some(k + 1)
  }

  /** No two rows share a name. */
  predicate DistinctNames(rows: seq<JsonRow>) {
    forall i, j :: 0 <= i < j < |rows| ==> rows[i].name != rows[j].name
  }

  /**
   * `findOrCreateResourceMap`: the row named `name` if the list has one;
   * otherwise a new row with an empty versions map, appended. The caller
   * gets the row's position, where Java returns a reference to it.
   */
  method FindOrCreateResourceMap(output: seq<JsonRow>, name: string, kind: string) returns (output': seq<JsonRow>, index: nat)
    ensures index < |output'| && output'[index].name == name
    ensures IndexOfName(output, name).Some? ==> output' == output && index == IndexOfName(output, name).value
    ensures IndexOfName(output, name).None? ==> output' == output + [JsonRow(name, kind, map[])] && index == |output|
    ensures DistinctNames(output) ==> DistinctNames(output')
  {
    for i := 0 to |output|
      invariant forall j :: 0 <= j < i ==> output[j].name != name
    {
      if output[i].name == name {
        return output, i;
      }
    }
    return output + [JsonRow(name, kind, map[])], |output|;
  }

  /** The rows after recording one resource of environment `env`. */
  function AddRow(rows: seq<JsonRow>, env: string, r: Resource): seq<JsonRow> {
    match IndexOfName(rows, r.name)
    case Some(i) => rows[i := rows[i].(versions := rows[i].versions[env := r.version])]
    case None => rows + [JsonRow(r.name, r.kind, map[env := r.version])]
  }

  /** The rows after one environment's resources. */
  function JsonEnv(rows: seq<JsonRow>, env: string, rs: seq<Resource>): seq<JsonRow>
    decreases |rs|
  {
    if rs == [] then rows else AddRow(JsonEnv(rows, env, rs[..|rs| - 1]), env, rs[|rs| - 1])
  }

  /** The rows after all entries, in iteration order. */
  function JsonRows(entries: seq<EnvResult>): seq<JsonRow>
    decreases |entries|
  {
    if entries == [] then []
    else
      var last := entries[|entries| - 1];
      JsonEnv(JsonRows(entries[..|entries| - 1]), last.env, last.resources)
  }

  /** The build loop of `outputJson`: every resource's version is put under its environment in its row. */
  method OutputJson(entries: seq<EnvResult>) returns (output: seq<JsonRow>)
    ensures output == JsonRows(entries)
  {
    output := [];
    for i := 0 to |entries|
      invariant output == JsonRows(entries[..i])
    {
      assert entries[..i + 1][..i] == entries[..i];
      var envName, rs := entries[i].env, entries[i].resources;
      for j := 0 to |rs|
        invariant output == JsonEnv(JsonRows(entries[..i]), envName, rs[..j])
      {
        assert rs[..j + 1][..j] == rs[..j];
        var resource := rs[j];
        var index;
        output, index := FindOrCreateResourceMap(output, resource.name, resource.kind);
        var versions := output[index].versions;
        output := output[index := output[index].(versions := versions[envName := resource.version])];
      }
      assert rs[..|rs|] == rs;
    }
    assert entries[..|entries|] == entries;
  }

  /** The versions shown for a name's environments. */
  function VersionsOf(m: map<string, Resource>): map<string, string> {
    map e | e in m :: m[e].version
  }

  /** The JSON rows are the grouping seen by name: one row per grouped name, versions taken from its environments. */
  predicate Agrees(rows: seq<JsonRow>, g: ByName) {
    && DistinctNames(rows)
    && (forall n :: n in g ==> exists i :: 0 <= i < |rows| && rows[i].name == n)
    && (forall i :: 0 <= i < |rows| ==> rows[i].name in g && rows[i].versions == VersionsOf(g[rows[i].name]))
  }

  /** Recording one resource in the rows and in the grouping keeps them in agreement. */
  lemma AddRowAgrees(rows: seq<JsonRow>, g: ByName, env: string, r: Resource)
    requires Agrees(rows, g)
    ensures Agrees(AddRow(rows, env, r), Put(g, env, r))
  {
    match IndexOfName(rows, r.name)
    case Some(i) => AddToExistingRowAgrees(rows, g, env, r, i);
    case None => AddNewRowAgrees(rows, g, env, r);
  }

  lemma AddToExistingRowAgrees(rows: seq<JsonRow>, g: ByName, env: string, r: Resource, i: nat)
    requires Agrees(rows, g)
    requires IndexOfName(rows, r.name) == Some(i)
    ensures Agrees(AddRow(rows, env, r), Put(g, env, r))
  {
    assert r.name in g;
    UpdateRowAgrees(rows, g, env, r, i,
      rows[i := rows[i].(versions := rows[i].versions[env := r.version])], g[r.name := g[r.name][env := r]]);
  }

  lemma UpdateRowAgrees(rows: seq<JsonRow>, g: ByName, env: string, r: Resource, i: nat, rows': seq<JsonRow>, g': ByName)
    requires Agrees(rows, g)
    requires i < |rows| && rows[i].name == r.name && r.name in g
    requires rows' == rows[i := rows[i].(versions := rows[i].versions[env := r.version])]
    requires g' == g[r.name := g[r.name][env := r]]
    ensures Agrees(rows', g')
  {
    UpdateRowVersions(rows, g, env, r, i, rows', g');
    UpdateRowCovers(rows, g, env, r, i, rows', g');
  }

  lemma UpdateRowVersions(rows: seq<JsonRow>, g: ByName, env: string, r: Resource, i: nat, rows': seq<JsonRow>, g': ByName)
    requires Agrees(rows, g)
    requires i < |rows| && rows[i].name == r.name && r.name in g
    requires rows' == rows[i := rows[i].(versions := rows[i].versions[env := r.version])]
    requires g' == g[r.name := g[r.name][env := r]]
    ensures forall j :: 0 <= j < |rows'| ==> rows'[j].name in g' && rows'[j].versions == VersionsOf(g'[rows'[j].name])
  {
    forall j | 0 <= j < |rows'|
      ensures rows'[j].name in g' && rows'[j].versions == VersionsOf(g'[rows'[j].name])
    {
      if j == i {
        assert VersionsOf(g'[r.name]) == VersionsOf(g[r.name])[env := r.version];
      } else {
        assert rows'[j] == rows[j];
      }
    }
  }

  lemma UpdateRowCovers(rows: seq<JsonRow>, g: ByName, env: string, r: Resource, i: nat, rows': seq<JsonRow>, g': ByName)
    requires Agrees(rows, g)
    requires i < |rows| && rows[i].name == r.name && r.name in g
    requires rows' == rows[i := rows[i].(versions := rows[i].versions[env := r.version])]
    requires g' == g[r.name := g[r.name][env := r]]
    ensures DistinctNames(rows')
    ensures forall n :: n in g' ==> exists j :: 0 <= j < |rows'| && rows'[j].name == n
  {
    assert forall j :: 0 <= j < |rows| ==> rows'[j].name == rows[j].name;
    forall n | n in g'
      ensures exists j :: 0 <= j < |rows'| && rows'[j].name == n
    {
      var j :| 0 <= j < |rows| && rows[j].name == n;
      assert rows'[j].name == n;
    }
  }

  lemma AddNewRowAgrees(rows: seq<JsonRow>, g: ByName, env: string, r: Resource)
    requires Agrees(rows, g)
    requires IndexOfName(rows, r.name) == None
    ensures Agrees(AddRow(rows, env, r), Put(g, env, r))
  {
    assert r.name !in g;
    NewRowAgrees(rows, g, env, r, rows + [JsonRow(r.name, r.kind, map[env := r.version])], g[r.name := map[env := r]]);
  }

  lemma NewRowAgrees(rows: seq<JsonRow>, g: ByName, env: string, r: Resource, rows': seq<JsonRow>, g': ByName)
    requires Agrees(rows, g)
    requires r.name !in g
    requires rows' == rows + [JsonRow(r.name, r.kind, map[env := r.version])]
    requires g' == g[r.name := map[env := r]]
    ensures Agrees(rows', g')
  {
    NewRowVersions(rows, g, env, r, rows', g');
    NewRowCovers(rows, g, env, r, rows', g');
  }

  lemma NewRowVersions(rows: seq<JsonRow>, g: ByName, env: string, r: Resource, rows': seq<JsonRow>, g': ByName)
    requires Agrees(rows, g)
    requires r.name !in g
    requires rows' == rows + [JsonRow(r.name, r.kind, map[env := r.version])]
    requires g' == g[r.name := map[env := r]]
    ensures forall j :: 0 <= j < |rows'| ==> rows'[j].name in g' && rows'[j].versions == VersionsOf(g'[rows'[j].name])
  {
    forall j | 0 <= j < |rows'|
      ensures rows'[j].name in g' && rows'[j].versions == VersionsOf(g'[rows'[j].name])
    {
      if j == |rows| {
        assert VersionsOf(g'[r.name]) == map[env := r.version];
      } else {
        assert rows'[j] == rows[j];
      }
    }
  }

  lemma NewRowCovers(rows: seq<JsonRow>, g: ByName, env: string, r: Resource, rows': seq<JsonRow>, g': ByName)
    requires Agrees(rows, g)
    requires r.name !in g
    requires rows' == rows + [JsonRow(r.name, r.kind, map[env := r.version])]
    requires g' == g[r.name := map[env := r]]
    ensures DistinctNames(rows')
    ensures forall n :: n in g' ==> exists j :: 0 <= j < |rows'| && rows'[j].name == n
  {
    forall n | n in g'
      ensures exists j :: 0 <= j < |rows'| && rows'[j].name == n
    {
      if n == r.name {
        assert rows'[|rows|].name == n;
      } else {
        var j :| 0 <= j < |rows| && rows[j].name == n;
        assert rows'[j].name == n;
      }
    }
  }

  /** One environment's resources keep the rows and the grouping in agreement. */
  lemma {:induction false} JsonEnvAgrees(rows: seq<JsonRow>, g: ByName, env: string, rs: seq<Resource>)
    requires Agrees(rows, g)
    ensures Agrees(JsonEnv(rows, env, rs), GroupEnv(g, env, rs))
    decreases |rs|
  {
    if rs != [] {
      JsonEnvAgrees(rows, g, env, rs[..|rs| - 1]);
      AddRowAgrees(JsonEnv(rows, env, rs[..|rs| - 1]), GroupEnv(g, env, rs[..|rs| - 1]), env, rs[|rs| - 1]);
    }
  }

  /** The JSON rows agree with the table's grouping: never two rows with one name. */
  lemma {:induction false} JsonRowsAgree(entries: seq<EnvResult>)
    ensures Agrees(JsonRows(entries), Grouped(entries))
    decreases |entries|
  {
    if entries != [] {
      var init := entries[..|entries| - 1];
      var last := entries[|entries| - 1];
      JsonRowsAgree(init);
      JsonEnvAgrees(JsonRows(init), Grouped(init), last.env, last.resources);
    }
  }

  /**
   * A JSON row's versions map has exactly the environments in which its name
   * appears, each mapped to the version of the last resource of that name there.
   */
  lemma JsonRowVersions(entries: seq<EnvResult>, i: nat, k: nat)
    requires DistinctEnvs(entries)
    requires i < |JsonRows(entries)| && k < |entries|
    ensures var row := JsonRows(entries)[i];
      var last := LastNamed(entries[k].resources, row.name);
      && (entries[k].env in row.versions <==> last.Some?)
      && (last.Some? ==> row.versions[entries[k].env] == last.value.version)
  {
    JsonRowsAgree(entries);
    GroupedLookup(entries, k, JsonRows(entries)[i].name);
  }

  /** A JSON row names only environments among the entries. */
  lemma JsonRowEnvironments(entries: seq<EnvResult>, i: nat, e: string)
    requires i < |JsonRows(entries)|
    requires e in JsonRows(entries)[i].versions
    ensures exists k :: 0 <= k < |entries| && entries[k].env == e
  {
    JsonRowsAgree(entries);
    if forall k :: 0 <= k < |entries| ==> entries[k].env != e {
      GroupedAbsent(entries, e, JsonRows(entries)[i].name);
    }
  }
}
