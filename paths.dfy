/**
 * The one piece of path vocabulary that both the rule excludes and the vendor
 * cache group use: the directory name `node_modules` and where it occurs.
 */
module Paths {

  /** The directory name the `exclude` and both vendor patterns look for. */
  const NodeModules: string := "node_modules"

  /** `node_modules` occurs in `path` at index `i`. */
  predicate NameAt(path: string, i: int) {
    0 <= i && i + |NodeModules| <= |path| && path[i..i + |NodeModules|] == NodeModules
  }

  /** `/node_modules/.test(path)`: the name occurs anywhere, separator-bounded or not. */
  predicate ContainsNodeModules(path: string)
    ensures ContainsNodeModules(path) <==> exists p, q :: path == p + NodeModules + q
  {
    assert (exists i :: 0 <= i < |path| && NameAt(path, i)) ==> exists p, q :: path == p + NodeModules + q by {
      if exists i :: 0 <= i < |path| && NameAt(path, i) {
        var i :| 0 <= i < |path| && NameAt(path, i);
        assert path == path[..i] + NodeModules + path[i + |NodeModules|..];
      }
    }
    assert forall p, q :: path == p + NodeModules + q ==> NameAt(path, |p|) by {
      forall p, q | path == p + NodeModules + q ensures NameAt(path, |p|) {
        assert path[|p|..|p| + |NodeModules|] == NodeModules;
      }
    }
    exists i :: 0 <= i < |path| && NameAt(path, i)
  }
}
