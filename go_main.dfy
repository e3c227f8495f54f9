/**
 * `main.go`: the drift table. Versions of each resource name are collected
 * across environments, rewritten in place by `detectDrift`, and the rows of
 * the first environment's resources that drift are printed.
 */
module GoMain {
  import opened Model
  import opened Strings

  const NotFoundText := "NOT FOUND"
  const MissingText := "\U{2757} NOT FOUND"
  const SameMark := "\U{2705} "
  const DiffMark := "\U{274C} "

  /** The first cell after rewriting: "NOT FOUND" for an empty version. */
  function FirstCell(vs: seq<string>): string
    requires |vs| > 0
  {
    if vs[0] == "" then NotFoundText else vs[0]
  }

  /** A later cell after rewriting, compared with the rewritten first cell. */
  function LaterCell(first: string, v: string): string {
    if v == "" then MissingText
    else if v == first then SameMark + v
    else DiffMark + v
  }

  /** The cells `detectDrift` leaves in the slice. */
  function Rewritten(vs: seq<string>): (r: seq<string>)
    requires |vs| > 0
    ensures |r| == |vs|
  {
    [FirstCell(vs)] + seq(|vs| - 1, i requires 0 <= i < |vs| - 1 => LaterCell(FirstCell(vs), vs[i + 1]))
  }

  /** Drift: the first version is empty, or a later non-empty version differs from the rewritten first. */
  predicate HasDrift(vs: seq<string>)
    requires |vs| > 0
  {
    vs[0] == "" || exists i :: 1 <= i < |vs| && vs[i] != "" && vs[i] != FirstCell(vs)
  }

  /** `detectDrift`: rewrites every cell of the slice in place and reports whether the versions drift. */
  method DetectDrift(versions: array<string>) returns (drift: bool)
    requires versions.Length > 0
    modifies versions
    ensures versions[..] == Rewritten(old(versions[..]))
    ensures drift == HasDrift(old(versions[..]))
  {
    ghost var vs := versions[..];
    drift := false;
    if versions[0] == "" {
      drift := true;
      versions[0] := NotFoundText;
    }
    for i := 1 to versions.Length
      invariant versions[0] == FirstCell(vs)
      invariant forall k :: 1 <= k < i ==> versions[k] == LaterCell(FirstCell(vs), vs[k])
      invariant forall k :: i <= k < versions.Length ==> versions[k] == vs[k]
      invariant drift <==> vs[0] == "" || exists k :: 1 <= k < i && vs[k] != "" && vs[k] != FirstCell(vs)
    {
      var ver := versions[i];
      if ver == "" {
        versions[i] := MissingText;
        continue;
      }
      if versions[0] == ver {
        versions[i] := SameMark + ver;
        continue;
      }
      versions[i] := DiffMark + ver;
      drift := true;
    }
    RewrittenCells(vs, versions[..]);
  }

  /** A slice whose first cell is `FirstCell` and whose later cells are each `LaterCell` is the rewritten slice. */
  lemma RewrittenCells(vs: seq<string>, ws: seq<string>)
    requires |vs| > 0 && |ws| == |vs|
    requires ws[0] == FirstCell(vs)
    requires forall k :: 1 <= k < |vs| ==> ws[k] == LaterCell(FirstCell(vs), vs[k])
    ensures ws == Rewritten(vs)
  {
    var r := Rewritten(vs);
    forall k | 0 <= k < |vs|
      ensures ws[k] == r[k]
    {
    }
  }

  /** An empty first version drifts and is shown as "NOT FOUND". */
  lemma EmptyFirstDrifts(vs: seq<string>)
    requires |vs| > 0 && vs[0] == ""
    ensures HasDrift(vs) && Rewritten(vs)[0] == NotFoundText
  {
  }

  /**
   * Empty later versions are shown as "❗ NOT FOUND" and do not drift by
   * themselves: with a non-empty first version and every other later version
   * equal to it, there is no drift.
   */
  lemma EmptyLaterDoesNotDrift(vs: seq<string>)
    requires |vs| > 0 && vs[0] != ""
    requires forall i :: 1 <= i < |vs| ==> vs[i] == "" || vs[i] == vs[0]
    ensures !HasDrift(vs)
    ensures forall i :: 1 <= i < |vs| && vs[i] == "" ==> Rewritten(vs)[i] == MissingText
  {
  }

  /** The marks are told apart by their first character. */
  lemma MarksDiffer(v: string, w: string)
    ensures (DiffMark + v)[0] != (SameMark + w)[0]
    ensures (DiffMark + v)[0] != MissingText[0]
    ensures NotFoundText[0] != DiffMark[0]
  {
  }

  /**
   * The drift flag agrees with the rewritten cells: there is drift exactly
   * when the first cell is "NOT FOUND" from an empty version, or some later
   * cell carries the "❌" mark.
   */
  lemma {:induction false} DriftIffCrossMark(vs: seq<string>)
    requires |vs| > 0
    ensures HasDrift(vs) <==>
      vs[0] == "" || exists i :: 1 <= i < |vs| && |Rewritten(vs)[i]| > 0 && Rewritten(vs)[i][0] == DiffMark[0]
  {
    var r := Rewritten(vs);
    forall i | 1 <= i < |vs|
      ensures |r[i]| > 0 && r[i][0] == DiffMark[0] <==> vs[i] != "" && vs[i] != FirstCell(vs)
    {
      assert r[i] == LaterCell(FirstCell(vs), vs[i]);
      MarksDiffer(vs[i], vs[i]);
    }
  }

  /** `joinEnvs`: the environment names joined by `sep` into a builder, then upper-cased. */
  method JoinEnvs(names: seq<string>, sep: char) returns (s: string)
    requires |names| > 0
    ensures s == ToUpper(Join(names, [sep]))
  {
    var b := "";
    var l := |names|;
    for i := 0 to l - 1
      invariant b == if i == 0 then "" else Join(names[..i], [sep]) + [sep]
    {
      if i > 0 {
        assert names[..i + 1][..i] == names[..i];
      }
      b := b + names[i] + [sep];
    }
    if l > 1 {
      assert names[..l][..l - 1] == names[..l - 1];
      assert names[..l] == names;
    }
    b := b + names[l - 1];
    s := ToUpper(b);
  }

  /** Upper-casing the joined names upper-cases each name: the header columns are the names in capitals. */
  lemma {:induction false} JoinEnvsColumns(names: seq<string>)
    requires |names| > 0
    ensures ToUpper(Join(names, "\t")) == Join(seq(|names|, i requires 0 <= i < |names| => ToUpper(names[i])), "\t")
    decreases |names|
  {
    var up := seq(|names|, i requires 0 <= i < |names| => ToUpper(names[i]));
    if |names| > 1 {
      var init := names[..|names| - 1];
      JoinEnvsColumns(init);
      assert up[..|up| - 1] == seq(|init|, i requires 0 <= i < |init| => ToUpper(init[i]));
      ToUpperAppend(Join(init, "\t") + "\t", names[|names| - 1]);
      ToUpperAppend(Join(init, "\t"), "\t");
      assert ToUpper("\t") == "\t";
    } else {
      assert up == [ToUpper(names[0])];
    }
  }

  /** `resources[env]`: a missing key reads as the nil slice. */
  function ResourcesOf(resources: map<string, seq<Resource>>, env: string): seq<Resource> {
    if env in resources then resources[env] else []
  }

  /** `envVersions[name]`: a missing key reads as the nil slice. */
  function VersionsOf(m: map<string, seq<string>>, name: string): seq<string> {
    if name in m then m[name] else []
  }

  /** `envVersions[v.Name] = append(envVersions[v.Name], v.Version)`. */
  function AppendVersion(m: map<string, seq<string>>, r: Resource): map<string, seq<string>> {
    m[r.name := VersionsOf(m, r.name) + [r.version]]
  }

  /** The collection after one environment's resources. */
  function AppendAll(m: map<string, seq<string>>, rs: seq<Resource>): map<string, seq<string>>
    decreases |rs|
  {
    if rs == [] then m else AppendVersion(AppendAll(m, rs[..|rs| - 1]), rs[|rs| - 1])
  }

  /** The collection after all environments, in configured order. */
  function Collected(envs: seq<string>, resources: map<string, seq<Resource>>): map<string, seq<string>>
    decreases |envs|
  {
    if envs == [] then map[]
    else AppendAll(Collected(envs[..|envs| - 1], resources), ResourcesOf(resources, envs[|envs| - 1]))
  }

  /** The versions of the resources of `rs` named `name`, in order. */
  function NamedVersions(rs: seq<Resource>, name: string): seq<string>
    decreases |rs|
  {
    if rs == [] then []
    else NamedVersions(rs[..|rs| - 1], name) + (if rs[|rs| - 1].name == name then [rs[|rs| - 1].version] else [])
  }

  /** The versions of `name` across the environments, one per occurrence, in configured order. */
  function VersionsAcross(envs: seq<string>, resources: map<string, seq<Resource>>, name: string): seq<string>
    decreases |envs|
  {
    if envs == [] then []
    else VersionsAcross(envs[..|envs| - 1], resources, name) + NamedVersions(ResourcesOf(resources, envs[|envs| - 1]), name)
  }

  lemma {:induction false} AppendAllVersions(m: map<string, seq<string>>, rs: seq<Resource>, name: string)
    ensures VersionsOf(AppendAll(m, rs), name) == VersionsOf(m, name) + NamedVersions(rs, name)
    decreases |rs|
  {
    if rs != [] {
      AppendAllVersions(m, rs[..|rs| - 1], name);
    }
  }

  /**
   * The collection loop gives each name the versions of its occurrences, in
   * environment order; an environment without the name adds nothing.
   */
  lemma {:induction false} CollectedVersions(envs: seq<string>, resources: map<string, seq<Resource>>, name: string)
    ensures VersionsOf(Collected(envs, resources), name) == VersionsAcross(envs, resources, name)
    decreases |envs|
  {
    if envs != [] {
      CollectedVersions(envs[..|envs| - 1], resources, name);
      AppendAllVersions(Collected(envs[..|envs| - 1], resources), ResourcesOf(resources, envs[|envs| - 1]), name);
    }
  }

  lemma {:induction false} NamedVersionsNonEmpty(rs: seq<Resource>, r: Resource)
    requires r in rs
    ensures |NamedVersions(rs, r.name)| > 0
    decreases |rs|
  {
    if rs[|rs| - 1] != r {
      NamedVersionsNonEmpty(rs[..|rs| - 1], r);
    }
  }

  lemma {:induction false} VersionsAcrossGrows(envs: seq<string>, resources: map<string, seq<Resource>>, name: string)
    requires |envs| > 0
    ensures |VersionsAcross(envs, resources, name)| >= |NamedVersions(ResourcesOf(resources, envs[0]), name)|
    decreases |envs|
  {
    if |envs| > 1 {
      var init := envs[..|envs| - 1];
      assert init[0] == envs[0];
      VersionsAcrossGrows(init, resources, name);
    } else {
      assert envs[..0] == [];
    }
  }

  /** Every resource of `first` has a non-empty version list in `m`. */
  predicate Covers(first: seq<Resource>, m: map<string, seq<string>>) {
    forall r :: r in first ==> r.name in m && |m[r.name]| > 0
  }

  /** Every resource of the first environment has collected versions, so `detectDrift` never sees an empty slice. */
  lemma FirstEnvCovered(envs: seq<string>, resources: map<string, seq<Resource>>)
    requires |envs| > 0
    ensures Covers(ResourcesOf(resources, envs[0]), Collected(envs, resources))
  {
    forall r | r in ResourcesOf(resources, envs[0])
      ensures r.name in Collected(envs, resources) && |Collected(envs, resources)[r.name]| > 0
    {
      NamedVersionsNonEmpty(ResourcesOf(resources, envs[0]), r);
      VersionsAcrossGrows(envs, resources, r.name);
      CollectedVersions(envs, resources, r.name);
    }
  }

  /** One printed row: counter, type, name, and the rewritten version cells. */
  datatype GoRow = GoRow(count: int, kind: string, name: string, cells: seq<string>)

  /**
   * The row loop of `writeTable` as written: `detectDrift` rewrites the slice
   * held in the map, so a name seen again reads the rewritten cells.
   */
  function TableRows(first: seq<Resource>, m: map<string, seq<string>>, count: int): (rows: seq<GoRow>)
    requires Covers(first, m)
    decreases |first|
  {
    if first == [] then []
    else
      var res := first[0];
      var vs := m[res.name];
      var m' := m[res.name := Rewritten(vs)];
      assert Covers(first[1..], m');
      if HasDrift(vs) then [GoRow(count + 1, res.kind, res.name, Rewritten(vs))] + TableRows(first[1..], m', count + 1)
      else TableRows(first[1..], m', count)
  }

  /** One iteration of the row loop: `detectDrift` on the stored slice, whose backing array keeps the rewrite. */
  method DetectStored(m: map<string, seq<string>>, name: string) returns (m': map<string, seq<string>>, cells: seq<string>, drift: bool)
    requires name in m && |m[name]| > 0
    ensures cells == Rewritten(m[name]) && drift == HasDrift(m[name])
    ensures m' == m[name := cells]
  {
    var vs := m[name];
    var slice := new string[|vs|](i requires 0 <= i < |vs| => vs[i]);
    assert slice[..] == vs;
    drift := DetectDrift(slice);
    cells := slice[..];
    m' := m[name := cells];
  }

  /** The collection loop of `writeTable` for one environment's resources. */
  method AppendEnvironment(m: map<string, seq<string>>, r: seq<Resource>) returns (m': map<string, seq<string>>)
    ensures m' == AppendAll(m, r)
  {
    m' := m;
    for j := 0 to |r|
      invariant m' == AppendAll(m, r[..j])
    {
      assert r[..j + 1][..j] == r[..j];
      var v := r[j];
      var existing := if v.name in m' then m'[v.name] else [];
      m' := m'[v.name := existing + [v.version]];
    }
    assert r[..|r|] == r;
  }

  /** The collection loops of `writeTable`: every environment's resources, in configured order. */
  method CollectVersions(envs: seq<string>, resources: map<string, seq<Resource>>) returns (envVersions: map<string, seq<string>>)
    ensures envVersions == Collected(envs, resources)
  {
    envVersions := map[];
    for i := 0 to |envs|
      invariant envVersions == Collected(envs[..i], resources)
    {
      assert envs[..i + 1][..i] == envs[..i];
      var r := if envs[i] in resources then resources[envs[i]] else [];
      envVersions := AppendEnvironment(envVersions, r);
    }
    assert envs[..|envs|] == envs;
  }

  /** The row loop of `writeTable`: `detectDrift` on each first-environment name's stored versions. */
  method EmitRows(first: seq<Resource>, m0: map<string, seq<string>>) returns (rows: seq<GoRow>)
    requires Covers(first, m0)
    ensures rows == TableRows(first, m0, 0)
  {
    var m := m0;
    var count := 0;
    rows := [];
    assert first[0..] == first;
    for i := 0 to |first|
      invariant Covers(first[i..], m)
      invariant rows + TableRows(first[i..], m, count) == TableRows(first, m0, 0)
    {
      var res := first[i];
      assert first[i..][0] == res && first[i..][1..] == first[i + 1..];
      var versions, drift;
      m, versions, drift := DetectStored(m, res.name);
      if drift {
        count := count + 1;
        rows := rows + [GoRow(count, res.kind, res.name, versions)];
      }
    }
    assert first[|first|..] == [];
  }

  /**
   * `writeTable`: the header, then a numbered row for each resource of the
   * first environment whose collected versions drift.
   */
  method WriteTable(envs: seq<string>, resources: map<string, seq<Resource>>) returns (header: string, rows: seq<GoRow>)
    requires |envs| > 0
    ensures header == "#\tTYPE\tNAME\t" + ToUpper(Join(envs, "\t"))
    ensures Covers(ResourcesOf(resources, envs[0]), Collected(envs, resources)) &&
      rows == TableRows(ResourcesOf(resources, envs[0]), Collected(envs, resources), 0)
  {
    var joined := JoinEnvs(envs, '\t');
    header := "#\tTYPE\tNAME\t" + joined;
    var envVersions := CollectVersions(envs, resources);
    var first := if envs[0] in resources then resources[envs[0]] else [];
    FirstEnvCovered(envs, resources);
    rows := EmitRows(first, envVersions);
  }

  /** Printed rows are numbered consecutively from one past `count`. */
  lemma {:induction false} RowsNumbered(first: seq<Resource>, m: map<string, seq<string>>, count: int)
    requires Covers(first, m)
    ensures forall i :: 0 <= i < |TableRows(first, m, count)| ==> TableRows(first, m, count)[i].count == count + i + 1
    decreases |first|
  {
    if first != [] {
      var res := first[0];
      var m' := m[res.name := Rewritten(m[res.name])];
      assert Covers(first[1..], m');
      if HasDrift(m[res.name]) {
        RowsNumbered(first[1..], m', count + 1);
      } else {
        RowsNumbered(first[1..], m', count);
      }
    }
  }

  /** Every printed row is a resource of the first environment, with its type and name. */
  lemma {:induction false} RowsFromFirstEnv(first: seq<Resource>, m: map<string, seq<string>>, count: int)
    requires Covers(first, m)
    ensures forall row :: row in TableRows(first, m, count) ==>
      exists r :: r in first && r.name == row.name && r.kind == row.kind
    decreases |first|
  {
    if first != [] {
      var res := first[0];
      var m' := m[res.name := Rewritten(m[res.name])];
      assert Covers(first[1..], m');
      var c' := if HasDrift(m[res.name]) then count + 1 else count;
      RowsFromFirstEnv(first[1..], m', c');
      forall row | row in TableRows(first[1..], m', c')
        ensures exists r :: r in first && r.name == row.name && r.kind == row.kind
      {
        var r :| r in first[1..] && r.name == row.name && r.kind == row.kind;
        assert r in first;
      }
    }
  }

  /**
   * The row loop with `detectDrift` applied to a copy of each stored slice:
   * every resource of the first environment is judged on its collected versions.
   */
  function TableRowsOnCopy(first: seq<Resource>, m: map<string, seq<string>>, count: int): (rows: seq<GoRow>)
    requires Covers(first, m)
    decreases |first|
  {
    if first == [] then []
    else
      var res := first[0];
      var vs := m[res.name];
      assert Covers(first[1..], m);
      if HasDrift(vs) then [GoRow(count + 1, res.kind, res.name, Rewritten(vs))] + TableRowsOnCopy(first[1..], m, count + 1)
      else TableRowsOnCopy(first[1..], m, count)
  }

  /** On a copy, a resource of the first environment gets a row exactly when its collected versions drift. */
  lemma {:induction false} OnCopyRowsAreDrifting(first: seq<Resource>, m: map<string, seq<string>>, count: int)
    requires Covers(first, m)
    ensures forall row :: row in TableRowsOnCopy(first, m, count) ==>
      row.name in m && |m[row.name]| > 0 && HasDrift(m[row.name]) && row.cells == Rewritten(m[row.name])
    ensures forall r :: r in first && HasDrift(m[r.name]) ==>
      exists row :: row in TableRowsOnCopy(first, m, count) && row.name == r.name && row.kind == r.kind
    decreases |first|
  {
    if first != [] {
      assert Covers(first[1..], m);
      var c' := if HasDrift(m[first[0].name]) then count + 1 else count;
      OnCopyRowsAreDrifting(first[1..], m, c');
      var head := if HasDrift(m[first[0].name]) then [GoRow(count + 1, first[0].kind, first[0].name, Rewritten(m[first[0].name]))] else [];
      assert TableRowsOnCopy(first, m, count) == head + TableRowsOnCopy(first[1..], m, c');
      forall r | r in first && HasDrift(m[r.name])
        ensures exists row :: row in TableRowsOnCopy(first, m, count) && row.name == r.name && row.kind == r.kind
      {
        if r == first[0] {
          assert head[0] in TableRowsOnCopy(first, m, count);
        } else {
          assert r in first[1..];
          var row :| row in TableRowsOnCopy(first[1..], m, c') && row.name == r.name && row.kind == r.kind;
          assert row in TableRowsOnCopy(first, m, count);
        }
      }
    }
  }

  /** Distinct names in the first environment: nobody reads a rewritten slice, so the two loops agree. */
  lemma {:induction false} DistinctNamesNoWriteBack(first: seq<Resource>, m: map<string, seq<string>>, count: int)
    requires Covers(first, m)
    requires forall i, j :: 0 <= i < j < |first| ==> first[i].name != first[j].name
    ensures TableRows(first, m, count) == TableRowsOnCopy(first, m, count)
    decreases |first|
  {
    if first != [] {
      var res := first[0];
      var m' := m[res.name := Rewritten(m[res.name])];
      var c' := if HasDrift(m[res.name]) then count + 1 else count;
      assert Covers(first[1..], m');
      assert Covers(first[1..], m);
      DistinctNamesNoWriteBack(first[1..], m', c');
      OnCopyIgnoresOtherNames(first[1..], m', m, c');
    }
  }

  lemma {:induction false} OnCopyIgnoresOtherNames(first: seq<Resource>, m1: map<string, seq<string>>, m2: map<string, seq<string>>, count: int)
    requires Covers(first, m1) && Covers(first, m2)
    requires forall r :: r in first ==> m1[r.name] == m2[r.name]
    ensures TableRowsOnCopy(first, m1, count) == TableRowsOnCopy(first, m2, count)
    decreases |first|
  {
    if first != [] {
      assert Covers(first[1..], m1) && Covers(first[1..], m2);
      var c' := if HasDrift(m1[first[0].name]) then count + 1 else count;
      OnCopyIgnoresOtherNames(first[1..], m1, m2, c');
    }
  }

  /**
   * A name listed twice in the first environment, with one version 1.0.0
   * everywhere: the first pass finds no drift and leaves "✅ 1.0.0" in the
   * stored slice; the second pass compares against that text and prints a
   * drift row. On a copy there is no row.
   */
  lemma RepeatedNameReadsRewrittenSlice(first: seq<Resource>, m: map<string, seq<string>>)
    requires first == [Resource("Deployment", "app", "1.0.0"), Resource("Deployment", "app", "1.0.0")]
    requires m == map["app" := ["1.0.0", "1.0.0"]]
    ensures Covers(first, m)
    ensures TableRowsOnCopy(first, m, 0) == []
    ensures |TableRows(first, m, 0)| == 1
  {
    var vs := ["1.0.0", "1.0.0"];
    assert !HasDrift(vs);
    var once := Rewritten(vs);
    assert once == ["1.0.0", SameMark + "1.0.0"];
    assert once[1] != once[0];
    assert HasDrift(once);
    var m' := m["app" := once];
    assert Covers([first[1]], m');
    assert first[1..] == [first[1]];
    assert first[1..][1..] == [];
    assert TableRowsOnCopy([first[1]], m, 0) == [];
    assert TableRows([first[1]], m', 0) == [GoRow(1, "Deployment", "app", Rewritten(once))];
  }

  /** The last version of `name` in `rs`, or "" when `rs` has none. */
  function LastVersion(rs: seq<Resource>, name: string): (v: string)
    ensures NamedVersions(rs, name) == [] ==> v == ""
    ensures NamedVersions(rs, name) != [] ==> v == NamedVersions(rs, name)[|NamedVersions(rs, name)| - 1]
    decreases |rs|
  {
    if rs == [] then ""
    else if rs[|rs| - 1].name == name then rs[|rs| - 1].version
    else LastVersion(rs[..|rs| - 1], name)
  }

  /**
   * The versions of `name` one per configured environment, "" where the
   * environment lacks it, so each cell sits under its environment's column.
   */
  function AlignedVersions(envs: seq<string>, resources: map<string, seq<Resource>>, name: string): (vs: seq<string>)
    ensures |vs| == |envs|
    ensures forall k :: 0 <= k < |envs| ==> vs[k] == LastVersion(ResourcesOf(resources, envs[k]), name)
  {
    seq(|envs|, k requires 0 <= k < |envs| => LastVersion(ResourcesOf(resources, envs[k]), name))
  }

  /** With aligned versions, a missing environment is "❗ NOT FOUND" in its own column and later ones keep theirs. */
  lemma AlignedKeepsColumns(envs: seq<string>, resources: map<string, seq<Resource>>, name: string, k: nat)
    requires 0 < k < |envs|
    requires NamedVersions(ResourcesOf(resources, envs[k]), name) == []
    ensures Rewritten(AlignedVersions(envs, resources, name))[k] == MissingText
  {
  }

  lemma ExampleCollected(envs: seq<string>, resources: map<string, seq<Resource>>)
    requires envs == ["dev", "prod", "stage"]
    requires resources == map["dev" := [Resource("Deployment", "app", "1.0.0")], "stage" := [Resource("Deployment", "app", "2.0.0")]]
    ensures VersionsOf(Collected(envs, resources), "app") == ["1.0.0", "2.0.0"]
  {
    CollectedVersions(envs, resources, "app");
    var dev := [Resource("Deployment", "app", "1.0.0")];
    var stage := [Resource("Deployment", "app", "2.0.0")];
    assert ResourcesOf(resources, "dev") == dev;
    assert ResourcesOf(resources, "prod") == [];
    assert ResourcesOf(resources, "stage") == stage;
    assert NamedVersions(dev, "app") == ["1.0.0"];
    assert NamedVersions(stage, "app") == ["2.0.0"];
    assert envs[..2] == ["dev", "prod"] && envs[..2][..1] == ["dev"] && envs[..1] == ["dev"];
    assert VersionsAcross(["dev"], resources, "app") == ["1.0.0"];
    assert VersionsAcross(["dev", "prod"], resources, "app") == ["1.0.0"];
  }

  lemma ExampleAligned(envs: seq<string>, resources: map<string, seq<Resource>>)
    requires envs == ["dev", "prod", "stage"]
    requires resources == map["dev" := [Resource("Deployment", "app", "1.0.0")], "stage" := [Resource("Deployment", "app", "2.0.0")]]
    ensures AlignedVersions(envs, resources, "app") == ["1.0.0", "", "2.0.0"]
  {
    var dev := [Resource("Deployment", "app", "1.0.0")];
    var stage := [Resource("Deployment", "app", "2.0.0")];
    assert ResourcesOf(resources, "dev") == dev;
    assert ResourcesOf(resources, "prod") == [];
    assert ResourcesOf(resources, "stage") == stage;
    assert dev[..0] == [] && stage[..0] == [];
  }

  /**
   * dev has app 1.0.0, prod lacks it, stage has app 2.0.0. As collected, app
   * has two versions for three columns: 2.0.0 is shown under PROD and prod's
   * absence is not shown. Aligned, PROD reads "❗ NOT FOUND" and STAGE "❌ 2.0.0".
   */
  lemma MissingEnvironmentShiftsColumns(envs: seq<string>, resources: map<string, seq<Resource>>)
    requires envs == ["dev", "prod", "stage"]
    requires resources == map["dev" := [Resource("Deployment", "app", "1.0.0")], "stage" := [Resource("Deployment", "app", "2.0.0")]]
    ensures VersionsOf(Collected(envs, resources), "app") == ["1.0.0", "2.0.0"]
    ensures Rewritten(VersionsOf(Collected(envs, resources), "app"))[1] == DiffMark + "2.0.0"
    ensures Rewritten(AlignedVersions(envs, resources, "app")) == ["1.0.0", MissingText, DiffMark + "2.0.0"]
  {
    ExampleCollected(envs, resources);
    ExampleAligned(envs, resources);
    var collected := ["1.0.0", "2.0.0"];
    var aligned := ["1.0.0", "", "2.0.0"];
    assert Rewritten(collected)[1] == LaterCell("1.0.0", "2.0.0");
    RewrittenCells(aligned, ["1.0.0", MissingText, DiffMark + "2.0.0"]);
    assert "2.0.0"[0] != "1.0.0"[0];
  }
}
