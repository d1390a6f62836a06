/**
 * The status node: a base record or a linear chain of detail decorators
 * around one. Every node answers three questions: its id, its content
 * header and its status description.
 */
module StatusNode {
  import ServerManager

  /** The three detail decorators. */
  datatype Detail = Operations | Memory | Extensions

  /** The fixed fragment a detail appends to the description: the server manager's text for it. */
  function Fragment(d: Detail): string {
    match d
    case Operations => ServerManager.OperationsStatus()
    case Memory => ServerManager.MemoryStatus()
    case Extensions => ServerManager.ExtensionsStatus()
  }

  /**
   * A base node originates id, header and description; a decorated node
   * owns exactly one inner node, so a node is always a finite linear chain
   * ending in a base node.
   */
  datatype Node =
    | Base(id: int, header: string, desc: string)
    | Decorated(detail: Detail, inner: Node)

  /** The id: a decorator asks its inner node, so every node reports its base node's id. */
  function Id(n: Node): (r: int)
    ensures r == Root(n).id
  {
    match n
    case Base(id, _, _) => id
    case Decorated(_, inner) => Id(inner)
  }

  /** The content header: passed through every decorator from the base node. */
  function ContentHeader(n: Node): (r: string)
    ensures r == Root(n).header
  {
    match n
    case Base(_, header, _) => header
    case Decorated(_, inner) => ContentHeader(inner)
  }

  /**
   * The status description: every decorator appends its fragment to the
   * inner description, so at any depth it is the base description followed
   * by the fragments of the applied details, innermost first.
   */
  function StatusDesc(n: Node): (r: string)
    ensures r == Root(n).desc + DetailsText(Details(n))
  {
    match n
    case Base(_, _, desc) =>
      AppendEmpty(desc);
      desc
    case Decorated(d, inner) =>
      DetailsTextSnoc(Details(inner), d);
      AppendAssoc(Root(inner).desc, DetailsText(Details(inner)), Fragment(d));
      StatusDesc(inner) + Fragment(d)
  }

  /** The base node at the bottom of the chain. */
  function Root(n: Node): (r: Node)
    ensures r.Base?
  {
    match n
    case Base(_, _, _) => n
    case Decorated(_, inner) => Root(inner)
  }

  /** The details of the chain in the order they were applied, innermost first. */
  function Details(n: Node): seq<Detail> {
    match n
    case Base(_, _, _) => []
    case Decorated(d, inner) => Details(inner) + [d]
  }

  /** The fragments of a detail sequence, concatenated from the first to the last. */
  function DetailsText(ds: seq<Detail>): string {
    if |ds| == 0 then "" else Fragment(ds[0]) + DetailsText(ds[1..])
  }

  /** The description a base node carries: "Server is " and the server's status. */
  function BaseDescription(): string {
    "Server is " + ServerManager.CurrentServerStatus()
  }

  /** The header naming who asked for the status. */
  function RequestedBy(requester: string): string {
    "Server Status requested by " + requester
  }

  /** The undecorated status produced for one request. */
  function MakeBase(id: int, requester: string): (r: Node)
    ensures r.Base? && Id(r) == id
    ensures ContentHeader(r) == RequestedBy(requester)
    ensures StatusDesc(r) == "Server is up"
  {
    Base(id, RequestedBy(requester), BaseDescription())
  }

  /** Appending one fragment at the end of a detail sequence appends its text. */
  lemma {:induction false} DetailsTextSnoc(ds: seq<Detail>, d: Detail)
    ensures DetailsText(ds + [d]) == DetailsText(ds) + Fragment(d)
  {
    if |ds| == 0 {
      assert ds + [d] == [d];
      assert [d][1..] == [];
      AppendEmpty(Fragment(d));
    } else {
      var f, rest := Fragment(ds[0]), DetailsText(ds[1..]);
      calc {
        DetailsText(ds + [d]);
        { assert (ds + [d])[0] == ds[0];
          assert (ds + [d])[1..] == ds[1..] + [d]; }
        f + DetailsText(ds[1..] + [d]);
        { DetailsTextSnoc(ds[1..], d); }
        f + (rest + Fragment(d));
        { AppendAssoc(f, rest, Fragment(d)); }
        (f + rest) + Fragment(d);
      }
    }
  }

  lemma AppendAssoc(a: string, b: string, c: string)
    ensures (a + b) + c == a + (b + c)
  {
  }

  lemma AppendEmpty(a: string)
    ensures a + "" == a && "" + a == a
  {
  }

  /** Of two strings that start two equal concatenations, the shorter is a prefix of the longer. */
  lemma CommonStart(p: string, a: string, q: string, b: string)
    requires p + a == q + b && |p| <= |q|
    ensures ServerManager.StartsWith(q, p)
    ensures |p| == |q| ==> p == q && a == b
  {
    assert (p + a)[..|p|] == p;
    assert (q + b)[..|q|] == q;
    if |p| == |q| {
      assert (p + a)[|p|..] == a;
      assert (q + b)[|q|..] == b;
    }
  }

  /** A description determines the detail sequence that produced it. */
  lemma {:induction false} DetailsTextInjective(xs: seq<Detail>, ys: seq<Detail>)
    requires DetailsText(xs) == DetailsText(ys)
    ensures xs == ys
  {
    if |xs| == 0 || |ys| == 0 {
      if |xs| != 0 {
        FragmentNonEmpty(xs[0]);
      } else if |ys| != 0 {
        FragmentNonEmpty(ys[0]);
      }
    } else {
      var fx, fy := Fragment(xs[0]), Fragment(ys[0]);
      var rx, ry := DetailsText(xs[1..]), DetailsText(ys[1..]);
      assert fx + rx == fy + ry;
      if |fx| <= |fy| {
        CommonStart(fx, rx, fy, ry);
      } else {
        CommonStart(fy, ry, fx, rx);
      }
      FragmentDeterminesDetail(xs[0], ys[0]);
      CommonStart(fx, rx, fy, ry);
      DetailsTextInjective(xs[1..], ys[1..]);
      assert xs == [xs[0]] + xs[1..];
      assert ys == [ys[0]] + ys[1..];
    }
  }

  /** Every fragment is non-empty, so every decorator lengthens the description. */
  lemma FragmentNonEmpty(d: Detail)
    ensures |Fragment(d)| > 0
  {
    ServerManager.FragmentsStartWithLead();
  }

  /** The fragment of one detail is a prefix of the fragment of another only when they are the same detail. */
  lemma FragmentDeterminesDetail(a: Detail, b: Detail)
    requires ServerManager.StartsWith(Fragment(a), Fragment(b)) || ServerManager.StartsWith(Fragment(b), Fragment(a))
    ensures a == b
  {
    ServerManager.FragmentsPrefixFree();
  }
}
