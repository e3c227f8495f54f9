/** The Go package `resource` (internal/resource/common.go): exclusion by compiled regular expressions. */
module GoResource {
  import opened Model
  import opened Strings

  /**
   * `resource.Config`: namespace, tag filter, exclude and include lists. A
   * nil slice or map is the empty one; `tags` lists the map's entries in its
   * iteration order.
   */
  datatype Config = Config(namespace: string, tags: seq<Tag>, exclude: seq<string>, includes: seq<string>)

  /** A compiled `*regexp.Regexp`, known by the expression it was compiled from. */
  datatype Regexp = Regexp(expr: string)

  /**
   * `IsExcluded`: true as soon as one expression matches somewhere in the
   * name (`MatchString` searches, it does not anchor); false for an empty list.
   */
  function IsExcluded(name: string, expr: seq<Regexp>, re: RegexEngine): (r: bool)
    ensures r <==> exists k :: 0 <= k < |expr| && re.matches(expr[k].expr, name)
    decreases |expr|
  {
    if expr == [] then false
    else if re.matches(expr[0].expr, name) then true
    else IsExcluded(name, expr[1..], re)
  }

  /** The exclude list compiled pattern by pattern. */
  function Regexps(exclude: seq<string>): (r: seq<Regexp>)
    ensures |r| == |exclude|
  {
    seq(|exclude|, k requires 0 <= k < |exclude| => Regexp(exclude[k]))
  }

  /**
   * `ExcludedAsRegexp`: compiles every pattern into a slice of the same
   * length, index by index; the first pattern that does not compile ends the
   * call with an error and no slice.
   */
  method ExcludedAsRegexp(exclude: seq<string>, re: RegexEngine) returns (r: Outcome<seq<Regexp>>)
    ensures r != Fatal
    ensures r.Ok? <==> forall k :: 0 <= k < |exclude| ==> re.compiles(exclude[k])
    ensures r.Ok? ==> |r.value| == |exclude| && forall k :: 0 <= k < |exclude| ==> r.value[k] == Regexp(exclude[k])
    ensures r.Ok? ==> r.value == Regexps(exclude)
  {
    var excluded := new Regexp[|exclude|];
    for i := 0 to |exclude|
      invariant forall k :: 0 <= k < i ==> re.compiles(exclude[k]) && excluded[k] == Regexp(exclude[k])
    {
      if !re.compiles(exclude[i]) {
        return Error;
      }
      excluded[i] := Regexp(exclude[i]);
    }
    return Ok(excluded[..]);
  }

  /** Patterns without metacharacters: every one compiles, and matching is containment. */
  const Literal: RegexEngine := RegexEngine(p => true, (p, n) => Contains(n, p))

  /** Substring semantics: pattern "foo" excludes "foo" and "foobar" but not "fo". */
  lemma LiteralPatternMatchesAnywhere()
    ensures IsExcluded("foo", [Regexp("foo")], Literal)
    ensures IsExcluded("foobar", [Regexp("foo")], Literal)
    ensures !IsExcluded("fo", [Regexp("foo")], Literal)
  {
    assert "foo" <= "foo"[0..];
    assert "foo" <= "foobar"[0..];
  }

  /** More expressions, in any position, never take an exclusion back. */
  lemma ExclusionMonotone(name: string, a: seq<Regexp>, b: seq<Regexp>, re: RegexEngine)
    requires forall e :: e in a ==> e in b
    requires IsExcluded(name, a, re)
    ensures IsExcluded(name, b, re)
  {
    var k :| 0 <= k < |a| && re.matches(a[k].expr, name);
    assert a[k] in b;
  }

  /** The order of the expressions does not matter. */
  lemma ExclusionIgnoresOrder(name: string, a: seq<Regexp>, b: seq<Regexp>, re: RegexEngine)
    requires forall e :: e in a <==> e in b
    ensures IsExcluded(name, a, re) == IsExcluded(name, b, re)
  {
    if IsExcluded(name, a, re) {
      ExclusionMonotone(name, a, b, re);
    }
    if IsExcluded(name, b, re) {
      ExclusionMonotone(name, b, a, re);
    }
  }
}
