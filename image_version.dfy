/**
 * The version tag of a container image reference, as both programs read it
 * with the pattern `.+:(\d+\.\d+\.\d+(-SNAPSHOT-.+)?)` and an unanchored
 * search (Java `Matcher.find`, Go `FindStringSubmatch`), written out as a
 * matcher. Both engines pick the leftmost match and, within it, the choices a
 * backtracking matcher makes first: `.+` as long as possible, each `\d+` as
 * long as possible, the optional `-SNAPSHOT-` group whenever it can match.
 */
module ImageVersion {
  import opened Model

  /** Which regex engine runs the pattern; they differ only in what `.` refuses. */
  datatype Dialect = Java | Go

  /** The characters `.` does not match (no DOTALL flag in either program). */
  predicate IsLineTerminator(d: Dialect, c: char) {
    match d
    case Java => c == '\n' || c == '\r' || c == '\U{0085}' || c == '\U{2028}' || c == '\U{2029}'
    case Go => c == '\n'
  }

  /** `\d` is ASCII-only in both engines. */
  predicate IsDigit(c: char) { '0' <= c <= '9' }

  const SnapshotMarker: string := "-SNAPSHOT-"

  /** The end of the longest run of digits in `s` that starts at `i`. */
  function DigitsEnd(s: string, i: nat): (e: nat)
    requires i <= |s|
    ensures i <= e <= |s|
    ensures forall k :: i <= k < e ==> IsDigit(s[k])
    ensures e == |s| || !IsDigit(s[e])
    decreases |s| - i
  {
    if i < |s| && IsDigit(s[i]) then DigitsEnd(s, i + 1) else i
  }

  /**
   * `\d+\.\d+\.\d+` at the start of `s`: the end of the third digit run, taken
   * as long as possible. A shorter first or second run would leave a digit
   * where `\.` is needed, so only the longest runs can succeed.
   */
  function TripleEnd(s: string): Option<nat> {
    var a := DigitsEnd(s, 0);
    if a == 0 || a == |s| || s[a] != '.' then None
    else
      var b := DigitsEnd(s, a + 1);
      if b == a + 1 || b == |s| || s[b] != '.' then None
      else
        var c := DigitsEnd(s, b + 1);
        if c == b + 1 then None else Some(c)
  }

  /** The `-SNAPSHOT-` group matches at `e` of `rest`: the marker and at least one character more. */
  predicate HasSnapshotTail(rest: string, e: nat) {
    e + |SnapshotMarker| < |rest| && rest[e..e + |SnapshotMarker|] == SnapshotMarker
  }

  /**
   * Group 1 for a colon followed by `rest`, the text up to the end of the
   * colon's line: the three numbers, and the rest of the line when it starts
   * with a snapshot tail (`.+` then runs to the end of the line).
   */
  function Capture(rest: string): Option<string> {
    match TripleEnd(rest)
    case None => None
    case Some(e) => Some(if HasSnapshotTail(rest, e) then rest else rest[..e])
  }

  /**
   * The shape of every captured version: three dot-separated digit runs,
   * alone or followed by `-SNAPSHOT-` and at least one more character.
   */
  predicate IsVersion(v: string) {
    match TripleEnd(v)
    case None => false
    case Some(e) => e == |v| || HasSnapshotTail(v, e)
  }

  /**
   * The greedy `.+:` inside one line: the colon positions are tried from the
   * right, down to index 1 (`.+` needs one character before the colon).
   */
  function MatchFrom(line: string, c: int): Option<string>
    requires c < |line|
    decreases c
  {
    if c < 1 then None
    else if line[c] == ':' && Capture(line[c + 1..]).Some? then Capture(line[c + 1..])
    else MatchFrom(line, c - 1)
  }

  function MatchLine(line: string): Option<string> {
    MatchFrom(line, |line| - 1)
  }

  /** The index of the first line terminator in `s`, or `|s|`. */
  function LineEnd(d: Dialect, s: string): (e: nat)
    ensures e <= |s|
    decreases |s|
  {
    if s == [] || IsLineTerminator(d, s[0]) then 0 else 1 + LineEnd(d, s[1..])
  }

  /** `LineEnd` is the first line terminator: none before it, one at it unless the text ends there. */
  lemma {:induction false} LineEndIsFirstTerminator(d: Dialect, s: string)
    ensures forall k :: 0 <= k < LineEnd(d, s) ==> !IsLineTerminator(d, s[k])
    ensures LineEnd(d, s) < |s| ==> IsLineTerminator(d, s[LineEnd(d, s)])
    decreases |s|
  {
    if s != [] && !IsLineTerminator(d, s[0]) {
      LineEndIsFirstTerminator(d, s[1..]);
      assert forall k :: 1 <= k < |s| ==> s[k] == s[1..][k - 1];
    }
  }

  /**
   * The unanchored search. No match can span a line terminator, and a match
   * that exists in a line also exists starting at that line's first character,
   * so the leftmost match lies in the first line that holds one.
   */
  function Find(d: Dialect, image: string): Option<string>
    decreases |image|
  {
    var e := LineEnd(d, image);
    match MatchLine(image[..e])
    case Some(v) => Some(v)
    case None => if e < |image| then Find(d, image[e + 1..]) else None
  }

  /**
   * `extractVersionFromImage` (Java) and `extractImageVersion` (Go): group 1
   * of the first match, or "N/A". A version that is found is well-formed and
   * is the text that follows some colon of the image (not its first character).
   */
  function ExtractVersionFromImage(d: Dialect, image: string): (r: string)
    ensures r == NotAvailable <==> Find(d, image).None?
    ensures r != NotAvailable ==>
      IsVersion(r) && exists c :: 0 < c < |image| && image[c] == ':' && r <= image[c + 1..]
  {
    match Find(d, image)
    case Some(v) =>
      FindShape(d, image);
      v
    case None => NotAvailable
  }

  /** Two strings that agree up to `|t|` have the same digit runs up to there. */
  lemma DigitsEndPrefix(s: string, t: string, i: nat)
    requires t <= s && i <= |t|
    ensures DigitsEnd(t, i) == if DigitsEnd(s, i) < |t| then DigitsEnd(s, i) else |t|
  {
  }

  /** Whatever `Capture` returns is a version, and it is a prefix of the text it read. */
  lemma CaptureShape(rest: string)
    requires Capture(rest).Some?
    ensures IsVersion(Capture(rest).value) && Capture(rest).value <= rest
  {
    var e := TripleEnd(rest).value;
    if !HasSnapshotTail(rest, e) {
      var v := rest[..e];
      var a := DigitsEnd(rest, 0);
      var b := DigitsEnd(rest, a + 1);
      DigitsEndPrefix(rest, v, 0);
      DigitsEndPrefix(rest, v, a + 1);
      DigitsEndPrefix(rest, v, b + 1);
      assert TripleEnd(v) == Some(e);
    }
  }

  /** A match in a line is captured after a colon at index 1 or more of that line. */
  lemma {:induction false} MatchFromShape(line: string, c: int)
    requires c < |line| && MatchFrom(line, c).Some?
    ensures IsVersion(MatchFrom(line, c).value)
    ensures exists k :: 0 < k <= c && line[k] == ':' && MatchFrom(line, c).value <= line[k + 1..]
    decreases c
  {
    if line[c] == ':' && Capture(line[c + 1..]).Some? {
      CaptureShape(line[c + 1..]);
    } else {
      MatchFromShape(line, c - 1);
    }
  }

  /** What `Find` returns is a version that follows a colon at index 1 or more of the image. */
  lemma {:induction false} FindShape(d: Dialect, image: string)
    requires Find(d, image).Some?
    ensures IsVersion(Find(d, image).value)
    ensures FollowsColon(image, Find(d, image).value)
    decreases |image|
  {
    var e := LineEnd(d, image);
    if MatchLine(image[..e]).Some? {
      MatchInLine(image, e, MatchLine(image[..e]).value);
    } else {
      FindShape(d, image[e + 1..]);
      MatchInLaterLine(image, e, Find(d, image[e + 1..]).value);
    }
  }

  /** A match in the first line follows a colon of that line, hence of the image. */
  lemma MatchInLine(image: string, e: nat, v: string)
    requires e <= |image| && MatchLine(image[..e]) == Some(v)
    ensures IsVersion(v) && FollowsColon(image, v)
  {
    var line := image[..e];
    MatchFromShape(line, |line| - 1);
    var k :| 0 < k <= |line| - 1 && line[k] == ':' && v <= line[k + 1..];
    assert line[k + 1..] <= image[k + 1..];
    ColonBefore(image, k, v);
  }

  /** A version that follows a colon of a later line follows that colon in the image. */
  lemma MatchInLaterLine(image: string, e: nat, v: string)
    requires e < |image| && FollowsColon(image[e + 1..], v)
    ensures FollowsColon(image, v)
  {
    var rest := image[e + 1..];
    var k :| 0 < k < |rest| && rest[k] == ':' && v <= rest[k + 1..];
    assert image[e + 1 + k] == ':';
    assert rest[k + 1..] == image[e + 1 + k + 1..];
    ColonBefore(image, e + 1 + k, v);
  }

  /** `v` starts right after some colon of `image` other than its first character. */
  predicate FollowsColon(image: string, v: string) {
    exists c :: 0 < c < |image| && image[c] == ':' && v <= image[c + 1..]
  }

  lemma ColonBefore(image: string, c: int, v: string)
    requires 0 < c < |image| && image[c] == ':' && v <= image[c + 1..]
    ensures FollowsColon(image, v)
  {
  }

  /** Positions that hold no colon are passed over by the greedy search. */
  lemma {:induction false} MatchFromSkips(line: string, c: int, k: int)
    requires 0 <= k <= c < |line|
    requires forall j :: k < j <= c ==> line[j] != ':'
    ensures MatchFrom(line, c) == MatchFrom(line, k)
    decreases c - k
  {
    if c > k {
      MatchFromSkips(line, c - 1, k);
    }
  }

  /** A line in which no colon at index 1 or more is followed by three numbers has no match. */
  lemma {:induction false} MatchFromNone(line: string, c: int)
    requires c < |line|
    requires forall k :: 0 < k <= c && line[k] == ':' ==> Capture(line[k + 1..]).None?
    ensures MatchFrom(line, c).None?
    decreases c
  {
    if c >= 1 {
      MatchFromNone(line, c - 1);
    }
  }

  /**
   * Round trip: tagging an image with a version (and no further colon) and
   * extracting the version gives it back, whatever colons the repository part
   * holds (a registry port, for one).
   */
  lemma TaggedImageGivesItsVersion(d: Dialect, repo: string, v: string, image: string)
    requires image == repo + ":" + v
    requires |repo| > 0 && IsVersion(v) && ':' !in v
    requires forall c :: c in repo + v ==> !IsLineTerminator(d, c)
    ensures ExtractVersionFromImage(d, image) == v
  {
    LineEndWhole(d, image);
    assert image[..|image|] == image;
    forall j | |repo| < j <= |image| - 1
      ensures image[j] != ':'
    {
      assert image[j] == v[j - |repo| - 1];
    }
    MatchFromSkips(image, |image| - 1, |repo|);
    assert image[|repo| + 1..] == v;
    CaptureOfVersion(v);
    assert MatchFrom(image, |repo|) == Some(v);
    assert Find(d, image) == Some(v);
  }

  /** A line without terminators is read as a whole. */
  lemma {:induction false} LineEndWhole(d: Dialect, s: string)
    requires forall k :: 0 <= k < |s| ==> !IsLineTerminator(d, s[k])
    ensures LineEnd(d, s) == |s|
    decreases |s|
  {
    if s != [] {
      LineEndWhole(d, s[1..]);
    }
  }

  /** A version is captured whole when it is all that follows the colon. */
  lemma CaptureOfVersion(v: string)
    requires IsVersion(v)
    ensures Capture(v) == Some(v)
  {
    var e := TripleEnd(v).value;
    if !HasSnapshotTail(v, e) {
      assert v[..e] == v;
    }
  }

  /** "2.10.3" has the shape of a version. */
  lemma ReleaseIsVersion(v: string)
    requires v == "2.10.3"
    ensures IsVersion(v)
  {
    assert DigitsEnd(v, 6) == 6;
    assert DigitsEnd(v, 5) == 6;
    assert DigitsEnd(v, 4) == 4;
    assert DigitsEnd(v, 2) == 4;
    assert DigitsEnd(v, 1) == 1;
    assert DigitsEnd(v, 0) == 1;
    assert TripleEnd(v) == Some(6);
  }

  /** A release tag: `repo/app:2.10.3` gives "2.10.3". */
  lemma ReleaseTagExample(d: Dialect, image: string)
    requires image == "repo/app:2.10.3"
    ensures ExtractVersionFromImage(d, image) == "2.10.3"
  {
    ReleaseIsVersion("2.10.3");
    TaggedImageGivesItsVersion(d, "repo/app", "2.10.3", image);
  }

  /** "2.10.3-SNAPSHOT-abc" has the shape of a version. */
  lemma SnapshotIsVersion(v: string)
    requires v == "2.10.3-SNAPSHOT-abc"
    ensures IsVersion(v)
  {
    assert DigitsEnd(v, 6) == 6;
    assert DigitsEnd(v, 5) == 6;
    assert DigitsEnd(v, 4) == 4;
    assert DigitsEnd(v, 2) == 4;
    assert DigitsEnd(v, 1) == 1;
    assert DigitsEnd(v, 0) == 1;
    assert TripleEnd(v) == Some(6);
    assert v[6..16] == SnapshotMarker;
  }

  /** The snapshot example holds no line terminator and no second colon. */
  lemma SnapshotExampleIsPlain(d: Dialect, repo: string, v: string)
    requires repo == "repo/app" && v == "2.10.3-SNAPSHOT-abc"
    ensures forall c :: c in repo + v ==> !IsLineTerminator(d, c)
    ensures ':' !in v
  {
  }

  /** A snapshot tag keeps its suffix: `repo/app:2.10.3-SNAPSHOT-abc` gives "2.10.3-SNAPSHOT-abc". */
  lemma SnapshotTagExample(d: Dialect, image: string)
    requires image == "repo/app:2.10.3-SNAPSHOT-abc"
    ensures ExtractVersionFromImage(d, image) == "2.10.3-SNAPSHOT-abc"
  {
    var repo, v := "repo/app", "2.10.3-SNAPSHOT-abc";
    assert image == repo + ":" + v;
    SnapshotIsVersion(v);
    SnapshotExampleIsPlain(d, repo, v);
    TaggedImageGivesItsVersion(d, repo, v, image);
  }

  /** A tag that is not three numbers gives "N/A": `repo/app:latest`. */
  lemma LatestTagExample(d: Dialect, image: string)
    requires image == "repo/app:latest"
    ensures ExtractVersionFromImage(d, image) == NotAvailable
  {
    LineEndWhole(d, image);
    assert image[..|image|] == image;
    assert DigitsEnd(image[9..], 0) == 0;
    forall k | 0 < k <= |image| - 1 && image[k] == ':'
      ensures Capture(image[k + 1..]).None?
    {
      assert k == 8;
    }
    MatchFromNone(image, |image| - 1);
  }
}
