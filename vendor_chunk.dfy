/**
 * The vendor cache group of `optimization.splitChunks`: its membership test
 * `/[\\/]node_modules[\\/]/` and its `name(module)` function, which runs
 * `module.context.match(/[\\/]node_modules[\\/](.*?)([\\/]|$)/)[1]`, drops the
 * first `@` of the capture with `replace('@', '')` and prefixes `npm.`.
 *
 * The regular expression is modelled with ECMAScript semantics: the leftmost
 * start position wins, the lazy `(.*?)` takes the shortest capture after which
 * `([\\/]|$)` matches, `$` (no `m` flag) matches only at the end of the
 * string, and `.` matches every character except a line terminator.
 */
module VendorChunk {
  import opened Wrappers
  import opened Paths

  /** Length of a whole `[\\/]node_modules[\\/]` segment. */
  const SegmentLength: nat := |NodeModules| + 2

  /** The character class `[\\/]`. */
  predicate IsSeparator(c: char) {
    c == '/' || c == '\\'
  }

  /** The characters the regex `.` does not match (ECMAScript LineTerminator). */
  predicate IsLineTerminator(c: char) {
    c == '\n' || c == '\r' || c == '\U{2028}' || c == '\U{2029}'
  }

  predicate NoLineTerminators(s: string) {
    forall k :: 0 <= k < |s| ==> !IsLineTerminator(s[k])
  }

  /** `[\\/]node_modules[\\/]` matches `s` at index `i`. */
  predicate SegmentAt(s: string, i: int) {
    && 0 <= i
    && i + SegmentLength <= |s|
    && IsSeparator(s[i])
    && s[i + 1..i + 1 + |NodeModules|] == NodeModules
    && IsSeparator(s[i + 1 + |NodeModules|])
  }

  /** The vendor group's `test`: the path holds a separator-bounded `node_modules` segment. */
  predicate InVendorGroup(path: string) {
    exists i :: 0 <= i < |path| && SegmentAt(path, i)
  }

  /** The part of a `RegExp.prototype.exec` result the source reads: `index` and group 1. */
  datatype Match = Match(index: nat, capture: string)

  /**
   * The whole naming pattern matches `s` at index `i` with `p` as group 1:
   * a segment, then `p` (no separator and no line terminator in it), then a
   * separator or the end of the string.
   */
  ghost predicate MatchesAt(s: string, i: int, p: string)
  {
    && SegmentAt(s, i)
    && i + SegmentLength + |p| <= |s|
    && s[i + SegmentLength..i + SegmentLength + |p|] == p
    && (forall k :: 0 <= k < |p| ==> !IsSeparator(p[k]) && !IsLineTerminator(p[k]))
    && (i + SegmentLength + |p| == |s| || IsSeparator(s[i + SegmentLength + |p|]))
  }

  ghost predicate MatchableAt(s: string, i: int) {
    exists p :: MatchesAt(s, i, p)
  }

  /** `m` is what `String.prototype.match` (no `g` flag) reports: the match at the leftmost possible start. */
  ghost predicate IsLeftmostMatch(s: string, m: Match)
    ensures IsLeftmostMatch(s, m) ==> MatchAt(s, m.index) == Some(m.capture)
  {
    && MatchesAt(s, m.index, m.capture)
    && forall j :: 0 <= j < m.index ==> !MatchableAt(s, j)
  }

  /** Where `([\\/]|$)` first succeeds at or after `j`: the first separator, or the end. */
  function CaptureEnd(s: string, j: nat): (k: nat)
    requires j <= |s|
    ensures j <= k <= |s|
    ensures k == |s| || IsSeparator(s[k])
    ensures forall m :: j <= m < k ==> !IsSeparator(s[m])
    decreases |s| - j
  {
    if j == |s| || IsSeparator(s[j]) then j else CaptureEnd(s, j + 1)
  }

  /** Any capture the pattern admits at `i` ends where `CaptureEnd` says. */
  lemma CaptureDetermined(s: string, i: int, p: string)
    requires MatchesAt(s, i, p)
    ensures p == s[i + SegmentLength..CaptureEnd(s, i + SegmentLength)]
  {
  }

  /**
   * The pattern tried at start index `i` alone. The lazy group grows one
   * character at a time until a separator or the end follows it; a line
   * terminator on the way makes `.` fail, and this start is abandoned.
   */
  function MatchAt(s: string, i: nat): (r: Option<string>)
    ensures forall p :: MatchesAt(s, i, p) <==> r == Some(p)
  {
    if !SegmentAt(s, i) then None
    else
      var start := i + SegmentLength;
      var k := CaptureEnd(s, start);
      if exists m :: start <= m < k && IsLineTerminator(s[m]) then
        assert forall p :: !MatchesAt(s, i, p) by {
          forall p | MatchesAt(s, i, p) ensures false {
            CaptureDetermined(s, i, p);
          }
        }
        None
      else
        var p0 := s[start..k];
        assert MatchesAt(s, i, p0);
        assert forall p :: MatchesAt(s, i, p) ==> p == p0 by {
          forall p | MatchesAt(s, i, p) ensures p == p0 {
            CaptureDetermined(s, i, p);
          }
        }
        Some(p0)
  }

  /** The regex engine's scan: try start indices `i`, `i + 1`, … and report the first match. */
  function FirstMatchFrom(s: string, i: nat): (r: Option<Match>)
    ensures r.Some? ==> && i <= r.value.index
                        && MatchesAt(s, r.value.index, r.value.capture)
                        && forall j :: i <= j < r.value.index ==> !MatchableAt(s, j)
    ensures r.None? ==> forall j :: i <= j ==> !MatchableAt(s, j)
    decreases |s| - i
  {
    if i >= |s| then None
    else
      match MatchAt(s, i)
      case Some(p) => Some(Match(i, p))
      case None => FirstMatchFrom(s, i + 1)
  }

  /** `context.match(/[\\/]node_modules[\\/](.*?)([\\/]|$)/)`: `None` stands for `null`. */
  function MatchVendorPattern(context: string): (r: Option<Match>)
    ensures r.Some? ==> IsLeftmostMatch(context, r.value)
    ensures r.None? <==> forall j :: !MatchableAt(context, j)
  {
    var r := FirstMatchFrom(context, 0);
    if r.Some? then
      assert MatchableAt(context, r.value.index);
      r
    else
      r
  }

  /** `s.indexOf(c)`: the first index holding `c`, or -1. */
  function IndexOf(s: string, c: char): (r: int)
    ensures -1 <= r < |s|
    ensures r == -1 <==> c !in s
    ensures 0 <= r ==> s[r] == c && c !in s[..r]
  {
    if |s| == 0 then -1
    else if s[0] == c then 0
    else
      var r := IndexOf(s[1..], c);
      if r == -1 then -1
      else
        assert s[..r + 1] == [s[0]] + s[1..][..r];
        r + 1
  }

  /**
   * `s.replace(c, '')`: a one-character string pattern with the empty
   * replacement (which holds no `$` pattern to expand). Only the first
   * occurrence of `c` is removed.
   */
  function RemoveFirst(s: string, c: char): (r: string)
    ensures c !in s ==> r == s
    ensures c in s ==>
      exists i :: 0 <= i < |s| && s[i] == c && c !in s[..i] && r == s[..i] + s[i + 1..]
    ensures forall x :: x in r ==> x in s
  {
    var i := IndexOf(s, c);
    if i == -1 then s
    else
      assert forall x :: x in s[..i] + s[i + 1..] ==> x in s[..i] || x in s[i + 1..];
      s[..i] + s[i + 1..]
  }

  /** What `name(module)` throws: `match` returned `null` and `null[1]` is a TypeError. */
  datatype NameError = NullMatch

  /** The vendor group's `name(module)`, applied to `module.context`. */
  function ChunkName(context: string): (r: Result<string, NameError>)
    ensures r.Failure? <==> forall j :: !MatchableAt(context, j)
    ensures r.Success? ==> && |r.value| >= 4
                           && r.value[..4] == "npm."
                           && forall k :: 4 <= k < |r.value| ==> !IsSeparator(r.value[k])
  {
    match MatchVendorPattern(context)
    case None => Failure(NullMatch)
    case Some(m) =>
      assert MatchesAt(context, m.index, m.capture);
      var name := RemoveFirst(m.capture, '@');
      assert forall k :: 0 <= k < |name| ==> name[k] in m.capture;
      Success("npm." + name)
  }

  /** No character of `node_modules` is a separator. */
  lemma NodeModulesHasNoSeparator()
    ensures forall k :: 0 <= k < |NodeModules| ==> !IsSeparator(NodeModules[k])
  {
  }

  /**
   * Every path in the vendor group also contains `node_modules` in the sense
   * of the rules' unanchored `exclude`, so no vendor script or shader is
   * transpiled by the rules that carry it.
   */
  lemma VendorGroupIsExcluded(path: string)
    requires InVendorGroup(path)
    ensures ContainsNodeModules(path)
  {
    var i :| 0 <= i < |path| && SegmentAt(path, i);
    assert NameAt(path, i + 1);
  }

  /** The leftmost match is unique: `match` is a function of the context. */
  lemma LeftmostMatchUnique(s: string, m1: Match, m2: Match)
    requires IsLeftmostMatch(s, m1) && IsLeftmostMatch(s, m2)
    ensures m1 == m2
  {
    assert MatchableAt(s, m1.index) && MatchableAt(s, m2.index);
    assert m1.index == m2.index;
    CaptureDetermined(s, m1.index, m1.capture);
    CaptureDetermined(s, m2.index, m2.capture);
  }

  /** The chunk name is `npm.` followed by the leftmost capture with its first `@` removed. */
  lemma ChunkNameOfLeftmost(s: string, m: Match)
    requires IsLeftmostMatch(s, m)
    ensures ChunkName(s) == Success("npm." + RemoveFirst(m.capture, '@'))
  {
    assert MatchableAt(s, m.index);
    var found := MatchVendorPattern(s);
    LeftmostMatchUnique(s, found.value, m);
  }

  /**
   * For a context without line terminators, naming succeeds exactly when the
   * context holds a separator-bounded `node_modules` segment, which is the
   * vendor group's own test applied to the context.
   */
  lemma ChunkNameDefinedIffSegment(s: string)
    requires NoLineTerminators(s)
    ensures ChunkName(s).Success? <==> InVendorGroup(s)
  {
    if ChunkName(s).Success? {
      var j :| MatchableAt(s, j);
      var p :| MatchesAt(s, j, p);
      assert 0 <= j < |s| && SegmentAt(s, j);
    }
    if InVendorGroup(s) {
      var i :| 0 <= i < |s| && SegmentAt(s, i);
      var start := i + SegmentLength;
      var k := CaptureEnd(s, start);
      var p := s[start..k];
      assert forall m :: 0 <= m < |p| ==> p[m] == s[start + m];
      assert MatchesAt(s, i, p);
      assert MatchableAt(s, i);
    }
  }

  /** The characters strictly inside a segment are the letters of `node_modules`. */
  lemma InsideSegmentIsNoSeparator(s: string, j: int, k: int)
    requires SegmentAt(s, j) && j < k < j + SegmentLength - 1
    ensures !IsSeparator(s[k])
  {
    NodeModulesHasNoSeparator();
    assert s[k] == s[j + 1..j + 1 + |NodeModules|][k - j - 1];
  }

  /** A segment met in `pre + [a] + ...` before index `|pre|` is a segment of `pre + [a]`. */
  lemma SegmentBeforePrefixEnd(pre: string, a: char, rest: string, j: int)
    requires IsSeparator(a)
    requires 0 <= j < |pre| && SegmentAt(pre + [a] + rest, j)
    ensures SegmentAt(pre + [a], j)
  {
    var s := pre + [a] + rest;
    if j + SegmentLength > |pre| + 1 {
      InsideSegmentIsNoSeparator(s, j, |pre|);
      assert false;
    }
    assert (pre + [a])[j..j + SegmentLength] == s[j..j + SegmentLength];
  }

  /**
   * The name of a context `pre/node_modules/pkg` followed by nothing or by a
   * separator and more path, with any mix of `/` and `\`, when no earlier
   * segment occurs: `npm.` + `pkg` with its first `@` dropped.
   */
  lemma ChunkNameOfPackagePath(pre: string, a: char, b: char, pkg: string, tail: string)
    requires IsSeparator(a) && IsSeparator(b)
    requires !InVendorGroup(pre + [a])
    requires forall k :: 0 <= k < |pkg| ==> !IsSeparator(pkg[k]) && !IsLineTerminator(pkg[k])
    requires tail == [] || IsSeparator(tail[0])
    ensures ChunkName(pre + [a] + NodeModules + [b] + pkg + tail)
         == Success("npm." + RemoveFirst(pkg, '@'))
  {
    var rest := NodeModules + [b] + pkg + tail;
    var s := pre + [a] + rest;
    assert s == pre + [a] + NodeModules + [b] + pkg + tail;
    var i := |pre|;
    assert s[i + 1..] == rest;
    assert rest[..|NodeModules|] == NodeModules;
    assert s[i + 1..i + 1 + |NodeModules|] == NodeModules;
    assert s[i + SegmentLength..] == pkg + tail;
    assert s[i + SegmentLength..i + SegmentLength + |pkg|] == pkg;
    assert i + SegmentLength + |pkg| < |s| ==> s[i + SegmentLength + |pkg|] == tail[0];
    assert MatchesAt(s, i, pkg);
    forall j | 0 <= j < i && MatchableAt(s, j) ensures false {
      var p :| MatchesAt(s, j, p);
      SegmentBeforePrefixEnd(pre, a, rest, j);
      assert InVendorGroup(pre + [a]);
    }
    ChunkNameOfLeftmost(s, Match(i, pkg));
  }

  /** `replace('@', '')` on a capture that starts with `@` drops exactly that `@`. */
  lemma RemoveLeadingAt(t: string)
    ensures RemoveFirst(['@'] + t, '@') == t
  {
    assert IndexOf(['@'] + t, '@') == 0;
  }

  /**
   * A scoped package `.../node_modules/@scope/pkg/...` is named after its
   * scope alone: only the segment up to the next separator is captured.
   */
  lemma ScopedChunkName(pre: string, a: char, b: char, scope: string, c: char, rest: string)
    requires IsSeparator(a) && IsSeparator(b) && IsSeparator(c)
    requires !InVendorGroup(pre + [a])
    requires forall k :: 0 <= k < |scope| ==> !IsSeparator(scope[k]) && !IsLineTerminator(scope[k])
    ensures ChunkName(pre + [a] + NodeModules + [b] + ['@'] + scope + [c] + rest) == Success("npm." + scope)
  {
    var pkg := ['@'] + scope;
    assert pre + [a] + NodeModules + [b] + ['@'] + scope + [c] + rest
        == pre + [a] + NodeModules + [b] + pkg + ([c] + rest);
    ChunkNameOfPackagePath(pre, a, b, pkg, [c] + rest);
    RemoveLeadingAt(scope);
  }

  /** `replace` with a string pattern removes only the first `@`. */
  lemma RemoveOnlyFirstAt()
    ensures RemoveFirst("@a@b", '@') == "a@b"
  {
    RemoveLeadingAt("a@b");
    assert "@a@b" == ['@'] + "a@b";
  }

  lemma SegmentExtends(s: string, rest: string, j: int)
    requires SegmentAt(s, j)
    ensures SegmentAt(s + rest, j) && j < |s + rest|
  {
    assert (s + rest)[j + 1..j + 1 + |NodeModules|] == s[j + 1..j + 1 + |NodeModules|];
  }

  /**
   * Whenever the name of a context is defined, every resource path that
   * extends the context passes the vendor group's test.
   */
  lemma NamedContextIsInVendorGroup(context: string, rest: string)
    requires ChunkName(context).Success?
    ensures InVendorGroup(context + rest)
  {
    var j := MatchVendorPattern(context).value.index;
    assert SegmentAt(context, j);
    SegmentExtends(context, rest, j);
  }

  /** Appending a separator-led tail does not move where a capture ends. */
  lemma {:induction false} CaptureEndExtends(s: string, t: string, j: nat)
    requires j <= |s|
    requires t == [] || IsSeparator(t[0])
    ensures CaptureEnd(s + t, j) == CaptureEnd(s, j)
    decreases |s| - j
  {
    if j < |s| {
      assert (s + t)[j] == s[j];
      if !IsSeparator(s[j]) {
        CaptureEndExtends(s, t, j + 1);
      }
    }
  }

  /** A start whose segment lies inside `s` fares the same in `s + t` for a separator-led `t`. */
  lemma MatchAtExtends(s: string, t: string, j: nat)
    requires j + SegmentLength <= |s|
    requires t == [] || IsSeparator(t[0])
    ensures MatchAt(s + t, j) == MatchAt(s, j)
    ensures forall p :: MatchesAt(s + t, j, p) <==> MatchesAt(s, j, p)
  {
    var u := s + t;
    assert u[j + 1..j + 1 + |NodeModules|] == s[j + 1..j + 1 + |NodeModules|];
    assert SegmentAt(u, j) == SegmentAt(s, j);
    CaptureEndExtends(s, t, j + SegmentLength);
    var k := CaptureEnd(s, j + SegmentLength);
    assert u[j + SegmentLength..k] == s[j + SegmentLength..k];
    assert forall m :: j + SegmentLength <= m < k ==> u[m] == s[m];
  }

  /**
   * Every module of one package lands in the same chunk: extending a named
   * context by a separator and more path (a subdirectory of the package)
   * keeps its name.
   */
  lemma SubdirectoryKeepsChunkName(context: string, t: string)
    requires ChunkName(context).Success?
    requires t == [] || IsSeparator(t[0])
    ensures ChunkName(context + t) == ChunkName(context)
  {
    var m := MatchVendorPattern(context).value;
    assert IsLeftmostMatch(context, m);
    assert SegmentAt(context, m.index);
    MatchAtExtends(context, t, m.index);
    assert MatchesAt(context + t, m.index, m.capture);
    forall j | 0 <= j < m.index ensures !MatchableAt(context + t, j) {
      assert !MatchableAt(context, j);
      MatchAtExtends(context, t, j);
    }
    assert IsLeftmostMatch(context + t, m);
    ChunkNameOfLeftmost(context, m);
    ChunkNameOfLeftmost(context + t, m);
  }

  // The examples below take their context as a parameter pinned by `requires`:
  // a string literal inside `ChunkName(...)` would make the verifier unfold
  // the whole scan on it.

  /** A context outside `node_modules` has no name: `name(module)` throws. */
  lemma ExampleOutsideNodeModules(context: string)
    requires context == "/app/src/js"
    ensures ChunkName(context) == Failure(NullMatch)
  {
  }

  /**
   * A file directly inside `node_modules` passes the vendor group's test on
   * its resource path, yet its context (the directory) ends in
   * `node_modules` with no trailing separator, so naming it throws.
   */
  lemma ExampleFileDirectlyInNodeModules(resource: string, context: string)
    requires resource == "/app/node_modules/x.js" && context == "/app/node_modules"
    ensures InVendorGroup(resource)
    ensures ChunkName(context) == Failure(NullMatch)
  {
    assert resource == "/app/" + NodeModules + "/x.js";
    assert resource[5..17] == NodeModules;
    assert SegmentAt(resource, 4);
    forall j | MatchableAt(context, j) ensures false {
    }
  }
}
