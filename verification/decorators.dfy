/**
 * The detail decorators. Each wraps exactly one inner node, answers id and
 * content header by asking the inner node, and answers the description
 * with the inner description followed by its own fragment.
 */
module Decorators {
  import ServerManager
  import opened StatusNode

  /** `p` is a proper prefix of `s`. */
  predicate IsStrictPrefix(p: string, s: string) {
    |p| < |s| && ServerManager.StartsWith(s, p)
  }

  /**
   * Wraps `inner` in the decorator for `d`: the pass-through behaviour all
   * decorators share, plus the fragment of `d` at the end of the description.
   */
  function Wrap(d: Detail, inner: Node): (r: Node)
    ensures Id(r) == Id(inner)
    ensures ContentHeader(r) == ContentHeader(inner)
    ensures StatusDesc(r) == StatusDesc(inner) + Fragment(d)
    ensures IsStrictPrefix(StatusDesc(inner), StatusDesc(r))
    ensures |StatusDesc(r)| == |StatusDesc(inner)| + |Fragment(d)|
    ensures Root(r) == Root(inner) && Details(r) == Details(inner) + [d]
  {
    FragmentNonEmpty(d);
    var r := Decorated(d, inner);
    assert StatusDesc(r)[..|StatusDesc(inner)|] == StatusDesc(inner);
    r
  }

  /** The operations decorator. */
  function WithOperations(inner: Node): (r: Node)
    ensures Id(r) == Id(inner)
    ensures ContentHeader(r) == ContentHeader(inner)
    ensures StatusDesc(r) == StatusDesc(inner) + ServerManager.OperationsStatus()
    ensures IsStrictPrefix(StatusDesc(inner), StatusDesc(r))
    ensures |StatusDesc(r)| == |StatusDesc(inner)| + |ServerManager.OperationsStatus()|
  {
    Wrap(Operations, inner)
  }

  /** The memory decorator. */
  function WithMemory(inner: Node): (r: Node)
    ensures Id(r) == Id(inner)
    ensures ContentHeader(r) == ContentHeader(inner)
    ensures StatusDesc(r) == StatusDesc(inner) + ServerManager.MemoryStatus()
    ensures IsStrictPrefix(StatusDesc(inner), StatusDesc(r))
    ensures |StatusDesc(r)| == |StatusDesc(inner)| + |ServerManager.MemoryStatus()|
  {
    Wrap(Memory, inner)
  }

  /** The extensions decorator. */
  function WithExtensions(inner: Node): (r: Node)
    ensures Id(r) == Id(inner)
    ensures ContentHeader(r) == ContentHeader(inner)
    ensures StatusDesc(r) == StatusDesc(inner) + ServerManager.ExtensionsStatus()
    ensures IsStrictPrefix(StatusDesc(inner), StatusDesc(r))
    ensures |StatusDesc(r)| == |StatusDesc(inner)| + |ServerManager.ExtensionsStatus()|
  {
    Wrap(Extensions, inner)
  }
}
