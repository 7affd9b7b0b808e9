/** Scope paths: the immutable list of names of the scope-opening calls that enclose a point. */
module ScopePath {

  /** The root scope, with which the public visitor starts. */
  const Root: seq<string> := []

  /** The scope of a nested visitor: a fresh path holding the parent's names, then `name`.
      The parent path is a value and is left as it was. */
  function Extend(scope: seq<string>, name: string): (r: seq<string>)
    ensures |r| == |scope| + 1
    ensures r[..|scope|] == scope && r[|scope|] == name
    ensures scope < r
  {
    scope + [name]
  }
}
