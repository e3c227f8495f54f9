/** `ResourceFinder.isExcluded`, the exclusion test both Java finders share. */
module ResourceFinder {
  import opened Model
  import opened Strings

  /**
   * The stream `map(Pattern::compile).anyMatch(...)` over a non-null list: the
   * patterns are compiled and tried one at a time, in order, and the search
   * stops at the first that matches; a pattern that does not compile throws
   * when it is reached, and only then.
   */
  function AnyMatch(name: string, patterns: seq<string>, re: RegexEngine): (r: Outcome<bool>)
    ensures r != Fatal
    ensures r.Ok? && r.value <==>
      exists k :: 0 <= k < |patterns| && re.matches(patterns[k], name) && CompileUpTo(patterns, k, re)
    ensures r.Ok? && !r.value <==>
      AllCompile(patterns, re) && forall k :: 0 <= k < |patterns| ==> !re.matches(patterns[k], name)
    ensures r.Error? <==>
      exists k :: 0 <= k < |patterns| && !re.compiles(patterns[k]) && NoMatchBefore(name, patterns, k, re)
    decreases |patterns|
  {
    if patterns == [] then Ok(false)
    else if !re.compiles(patterns[0]) then Error
    else if re.matches(patterns[0], name) then Ok(true)
    else AnyMatch(name, patterns[1..], re)
  }

  /** The patterns before index `k` all compile and none of them matches `name`. */
  predicate NoMatchBefore(name: string, patterns: seq<string>, k: int, re: RegexEngine)
    requires k <= |patterns|
  {
    forall j :: 0 <= j < k ==> re.compiles(patterns[j]) && !re.matches(patterns[j], name)
  }

  /** The patterns up to and including index `k` all compile. */
  predicate CompileUpTo(patterns: seq<string>, k: int, re: RegexEngine)
    requires k < |patterns|
  {
    forall j :: 0 <= j <= k ==> re.compiles(patterns[j])
  }

  predicate AllCompile(patterns: seq<string>, re: RegexEngine) {
    forall k :: 0 <= k < |patterns| ==> re.compiles(patterns[k])
  }

  /**
   * `isExcluded(name, excludePatterns)`: a null or empty list excludes
   * nothing; otherwise the first matching pattern excludes the name. The
   * result is `Error` when the exception `Pattern.compile` throws escapes.
   */
  function IsExcluded(name: string, excludePatterns: Option<seq<string>>, re: RegexEngine): (r: Outcome<bool>)
    ensures r != Fatal
    ensures excludePatterns == None || excludePatterns == Some([]) ==> r == Ok(false)
  {
    match excludePatterns
    case None => Ok(false)
    case Some(ps) => if ps == [] then Ok(false) else AnyMatch(name, ps, re)
  }

  /** With patterns that all compile, a name is excluded exactly when one of them matches it. */
  lemma ExcludedIffSomeMatch(name: string, ps: seq<string>, re: RegexEngine)
    requires AllCompile(ps, re)
    ensures IsExcluded(name, Some(ps), re) == Ok(exists k :: 0 <= k < |ps| && re.matches(ps[k], name))
  {
    if exists k :: 0 <= k < |ps| && re.matches(ps[k], name) {
      var k :| 0 <= k < |ps| && re.matches(ps[k], name);
      assert CompileUpTo(ps, k, re);
    }
  }

  /**
   * Adding patterns never takes an exclusion back: more patterns (that
   * compile) exclude at least the names fewer patterns exclude.
   */
  lemma ExclusionMonotone(name: string, ps: seq<string>, qs: seq<string>, re: RegexEngine)
    requires AllCompile(qs, re)
    requires forall p :: p in ps ==> p in qs
    requires IsExcluded(name, Some(ps), re) == Ok(true)
    ensures IsExcluded(name, Some(qs), re) == Ok(true)
  {
    var k :| 0 <= k < |ps| && re.matches(ps[k], name) && CompileUpTo(ps, k, re);
    assert ps[k] in qs;
    var j :| 0 <= j < |qs| && qs[j] == ps[k];
    ExcludedIffSomeMatch(name, qs, re);
  }

  /** When every pattern compiles, their order does not matter. */
  lemma ExclusionIgnoresOrder(name: string, ps: seq<string>, qs: seq<string>, re: RegexEngine)
    requires AllCompile(ps, re) && AllCompile(qs, re)
    requires forall p :: p in ps <==> p in qs
    ensures IsExcluded(name, Some(ps), re) == IsExcluded(name, Some(qs), re)
  {
    ExcludedIffSomeMatch(name, ps, re);
    ExcludedIffSomeMatch(name, qs, re);
    if exists k :: 0 <= k < |ps| && re.matches(ps[k], name) {
      var k :| 0 <= k < |ps| && re.matches(ps[k], name);
      assert ps[k] in qs;
    }
    if exists k :: 0 <= k < |qs| && re.matches(qs[k], name) {
      var k :| 0 <= k < |qs| && re.matches(qs[k], name);
      assert qs[k] in ps;
    }
  }

  /** Patterns without metacharacters: every one compiles, and `matches()` is equality. */
  const Literal: RegexEngine := RegexEngine(p => true, (p, n) => p == n)

  /** Full-match semantics: pattern "foo" excludes "foo" but neither "foobar" nor "fo". */
  lemma LiteralPatternMatchesWholeName()
    ensures IsExcluded("foo", Some(["foo"]), Literal) == Ok(true)
    ensures IsExcluded("foobar", Some(["foo"]), Literal) == Ok(false)
    ensures IsExcluded("fo", Some(["foo"]), Literal) == Ok(false)
  {
    assert "foobar" != "foo";
    assert "fo" != "foo";
  }

  /** A pattern that does not compile makes the call throw when no earlier pattern matched. */
  lemma InvalidPatternThrows(name: string, ps: seq<string>, bad: string, re: RegexEngine)
    requires AllCompile(ps, re) && forall k :: 0 <= k < |ps| ==> !re.matches(ps[k], name)
    requires !re.compiles(bad)
    ensures IsExcluded(name, Some(ps + [bad]), re) == Error
  {
    var all := ps + [bad];
    assert all[|ps|] == bad;
    assert NoMatchBefore(name, all, |ps|, re);
  }
}
