/**
 * Composition of a detailed status: the requested selector names are read
 * from left to right, each is validated, and the node built so far is
 * wrapped in the matching decorator. The first unknown name stops the
 * composition with an IllegalParameterException naming it.
 */
module Composition {
  import opened Wrappers
  import opened StatusNode
  import opened Decorators
  import opened IllegalParameter

  /** The request name of each detail. */
  function SelectorName(d: Detail): string {
    match d
    case Operations => "operations"
    case Memory => "memory"
    case Extensions => "extensions"
  }

  /** A token names a detail: it is exactly the request name of one, case included. */
  predicate IsSelector(token: string) {
    token == SelectorName(Operations) || token == SelectorName(Memory) || token == SelectorName(Extensions)
  }

  predicate AllSelectors(tokens: seq<string>) {
    forall i :: 0 <= i < |tokens| ==> IsSelector(tokens[i])
  }

  /** The failure reported for an unknown token. */
  function InvalidOption(token: string): IllegalParameterException {
    IllegalParameterException("Invalid details option: " + token)
  }

  /** Maps one token to its detail, or fails with a message echoing the token. */
  function ParseSelector(token: string): (r: Result<Detail, IllegalParameterException>)
    ensures r.Success? <==> IsSelector(token)
    ensures r.Success? ==> SelectorName(r.value) == token
    ensures r.Failure? ==> r.error.Message() == "Invalid details option: " + token
  {
    if token == SelectorName(Operations) then Success(Operations)
    else if token == SelectorName(Memory) then Success(Memory)
    else if token == SelectorName(Extensions) then Success(Extensions)
    else Failure(InvalidOption(token))
  }

  /** Every detail's name parses back to that detail. */
  lemma SelectorRoundTrip(d: Detail)
    ensures ParseSelector(SelectorName(d)) == Success(d)
  {
  }

  /** The position of the first unknown token, or the length when all tokens are known. */
  function FirstInvalid(tokens: seq<string>): (k: nat)
    ensures k <= |tokens|
    ensures forall j :: 0 <= j < k ==> IsSelector(tokens[j])
    ensures k < |tokens| ==> !IsSelector(tokens[k])
    ensures k == |tokens| <==> AllSelectors(tokens)
  {
    if |tokens| == 0 then 0
    else if !IsSelector(tokens[0]) then 0
    else 1 + FirstInvalid(tokens[1..])
  }

  /** The details a list of known tokens requests, in request order. */
  function Requested(tokens: seq<string>): (ds: seq<Detail>)
    requires AllSelectors(tokens)
    ensures |ds| == |tokens|
    ensures forall i :: 0 <= i < |ds| ==> SelectorName(ds[i]) == tokens[i]
  {
    if |tokens| == 0 then []
    else [ParseSelector(tokens[0]).value] + Requested(tokens[1..])
  }

  /**
   * Wraps `base` in the decorators of `ds`, the first one innermost. The
   * result keeps the id and header of `base` and describes it with the
   * fragments of `ds` appended in order.
   */
  function Chain(base: Node, ds: seq<Detail>): (r: Node)
    ensures Id(r) == Id(base)
    ensures ContentHeader(r) == ContentHeader(base)
    ensures StatusDesc(r) == StatusDesc(base) + DetailsText(ds)
    ensures Root(r) == Root(base)
    ensures Details(r) == Details(base) + ds
    decreases |ds|
  {
    if |ds| == 0 then base
    else
      var r := Chain(Decorated(ds[0], base), ds[1..]);
      AppendAssoc(StatusDesc(base), Fragment(ds[0]), DetailsText(ds[1..]));
      HeadThenRest(Details(base), ds);
      r
  }

  /** Appending the head of `s` and then its rest appends `s`. */
  lemma HeadThenRest<T>(a: seq<T>, s: seq<T>)
    requires |s| > 0
    ensures a + [s[0]] + s[1..] == a + s
  {
    assert s == [s[0]] + s[1..];
  }

  /**
   * The composition of a detailed status: a left fold over the tokens that
   * stops at the first unknown one.
   */
  function Compose(base: Node, tokens: seq<string>): Result<Node, IllegalParameterException>
    decreases |tokens|
  {
    if |tokens| == 0 then Success(base)
    else
      var d :- ParseSelector(tokens[0]);
      Compose(Wrap(d, base), tokens[1..])
  }

  /**
   * The fold agrees with validating every token first and wrapping after:
   * it succeeds exactly when every token is known, it then yields the chain
   * of the requested details, and otherwise it fails with the first unknown
   * token.
   */
  lemma {:induction false} ComposeSpec(base: Node, tokens: seq<string>)
    ensures Compose(base, tokens).Success? <==> AllSelectors(tokens)
    ensures Compose(base, tokens).Failure? ==>
              Compose(base, tokens).error == InvalidOption(tokens[FirstInvalid(tokens)])
    ensures Compose(base, tokens).Success? ==>
              Compose(base, tokens).value == Chain(base, Requested(tokens))
    decreases |tokens|
  {
    if |tokens| > 0 && ParseSelector(tokens[0]).Success? {
      var d := ParseSelector(tokens[0]).value;
      ComposeSpec(Wrap(d, base), tokens[1..]);
      SelectorsCons(tokens);
      if AllSelectors(tokens) {
        RequestedCons(tokens);
      }
    }
  }

  /** Past a known first token, the tokens are all known exactly when the rest are. */
  lemma SelectorsCons(tokens: seq<string>)
    requires |tokens| > 0 && IsSelector(tokens[0])
    ensures AllSelectors(tokens) <==> AllSelectors(tokens[1..])
  {
    if AllSelectors(tokens[1..]) {
      forall i | 0 <= i < |tokens|
        ensures IsSelector(tokens[i])
      {
        if i > 0 {
          assert tokens[i] == tokens[1..][i - 1];
        }
      }
    }
  }

  /** The requested details of known tokens are the first token's detail, then the rest's. */
  lemma RequestedCons(tokens: seq<string>)
    requires |tokens| > 0 && AllSelectors(tokens)
    ensures AllSelectors(tokens[1..])
    ensures Requested(tokens)[0] == ParseSelector(tokens[0]).value
    ensures Requested(tokens)[1..] == Requested(tokens[1..])
  {
    SelectorsCons(tokens);
    assert ([ParseSelector(tokens[0]).value] + Requested(tokens[1..]))[1..] == Requested(tokens[1..]);
  }

  /** Composing the empty list leaves the base node as it is. */
  lemma ComposeEmpty(base: Node)
    ensures Compose(base, []) == Success(base)
  {
  }

  /**
   * The fold law: composing a valid list keeps the id and header of the
   * base and describes it with the base description followed by each
   * requested fragment in request order, duplicates included.
   */
  lemma ComposeDescription(base: Node, tokens: seq<string>)
    requires AllSelectors(tokens)
    ensures Compose(base, tokens).Success?
    ensures Id(Compose(base, tokens).value) == Id(base)
    ensures ContentHeader(Compose(base, tokens).value) == ContentHeader(base)
    ensures StatusDesc(Compose(base, tokens).value) == StatusDesc(base) + DetailsText(Requested(tokens))
    ensures Details(Compose(base, tokens).value) == Details(base) + Requested(tokens)
  {
    ComposeSpec(base, tokens);
  }

  /**
   * The first unknown token is the one reported, whatever follows it, and
   * no partial result is produced.
   */
  lemma FirstInvalidReported(base: Node, tokens: seq<string>, k: nat)
    requires k < |tokens| && !IsSelector(tokens[k])
    requires forall j :: 0 <= j < k ==> IsSelector(tokens[j])
    ensures Compose(base, tokens) == Failure(InvalidOption(tokens[k]))
    ensures Compose(base, tokens).error.Message() == "Invalid details option: " + tokens[k]
  {
    ComposeSpec(base, tokens);
  }

  /** Composing a concatenation composes the second part onto the result of the first. */
  lemma {:induction false} ComposeAppend(base: Node, s: seq<string>, t: seq<string>)
    ensures Compose(base, s + t) ==
              match Compose(base, s)
              case Failure(e) => Failure(e)
              case Success(n) => Compose(n, t)
    decreases |s|
  {
    if |s| == 0 {
      assert s + t == t;
    } else {
      assert (s + t)[0] == s[0];
      assert (s + t)[1..] == s[1..] + t;
      match ParseSelector(s[0])
      case Failure(_) =>
      case Success(d) =>
        ComposeAppend(Wrap(d, base), s[1..], t);
    }
  }

  /**
   * Adding one token at the end either fails with that token's error or
   * wraps the previous result once more: the last token's fragment comes
   * last.
   */
  lemma ComposeSnoc(base: Node, tokens: seq<string>, t: string)
    ensures Compose(base, tokens + [t]) ==
              match Compose(base, tokens)
              case Failure(e) => Failure(e)
              case Success(n) =>
                match ParseSelector(t)
                case Failure(e) => Failure(e)
                case Success(d) => Success(Wrap(d, n))
  {
    ComposeAppend(base, tokens, [t]);
    if Compose(base, tokens).Success? {
      var n := Compose(base, tokens).value;
      assert [t][1..] == [];
      if ParseSelector(t).Success? {
        assert Compose(Wrap(ParseSelector(t).value, n), []) == Success(Wrap(ParseSelector(t).value, n));
      }
    }
  }

  /**
   * The requester's name reaches the header only: two requests that differ
   * in the name alone succeed or fail together, with the same id, the same
   * description and the same error.
   */
  lemma RequesterOnlyInHeader(id: int, a: string, b: string, tokens: seq<string>)
    ensures Compose(MakeBase(id, a), tokens).Success? == Compose(MakeBase(id, b), tokens).Success?
    ensures Compose(MakeBase(id, a), tokens).Success? ==>
              && Id(Compose(MakeBase(id, a), tokens).value) == Id(Compose(MakeBase(id, b), tokens).value)
              && StatusDesc(Compose(MakeBase(id, a), tokens).value) == StatusDesc(Compose(MakeBase(id, b), tokens).value)
              && ContentHeader(Compose(MakeBase(id, a), tokens).value) == RequestedBy(a)
    ensures Compose(MakeBase(id, a), tokens).Failure? ==>
              Compose(MakeBase(id, a), tokens).error == Compose(MakeBase(id, b), tokens).error
  {
    ComposeSpec(MakeBase(id, a), tokens);
    ComposeSpec(MakeBase(id, b), tokens);
  }

  /**
   * The description determines the request: two valid token lists that give
   * the same description are the same list. So the fragments are placed in
   * request order, not in any fixed order of the detail kinds, and no
   * duplicate is dropped.
   */
  lemma DescriptionDeterminesRequest(base: Node, s: seq<string>, t: seq<string>)
    requires Compose(base, s).Success? && Compose(base, t).Success?
    requires StatusDesc(Compose(base, s).value) == StatusDesc(Compose(base, t).value)
    ensures s == t
  {
    ComposeSpec(base, s);
    ComposeSpec(base, t);
    var ds, dt := Requested(s), Requested(t);
    var b := StatusDesc(base);
    assert b + DetailsText(ds) == b + DetailsText(dt);
    assert DetailsText(ds) == (b + DetailsText(ds))[|b|..];
    assert DetailsText(dt) == (b + DetailsText(dt))[|b|..];
    DetailsTextInjective(ds, dt);
    forall i | 0 <= i < |s|
      ensures s[i] == t[i]
    {
      assert s[i] == SelectorName(ds[i]);
    }
  }

  /** When the fold succeeds, and what description it then yields. */
  lemma ComposeOutcome(base: Node, tokens: seq<string>)
    ensures Compose(base, tokens).Success? <==> AllSelectors(tokens)
    ensures Compose(base, tokens).Success? ==>
              StatusDesc(Compose(base, tokens).value) == StatusDesc(base) + DetailsText(Requested(tokens))
  {
    ComposeSpec(base, tokens);
  }

  /** The composition as a loop over the tokens. */
  method ComposeLoop(base: Node, tokens: seq<string>) returns (r: Result<Node, IllegalParameterException>)
    ensures r == Compose(base, tokens)
    ensures r.Success? <==> AllSelectors(tokens)
    ensures r.Success? ==> StatusDesc(r.value) == StatusDesc(base) + DetailsText(Requested(tokens))
  {
    ComposeOutcome(base, tokens);
    var acc := base;
    var i := 0;
    while i < |tokens|
      invariant 0 <= i <= |tokens|
      invariant Compose(acc, tokens[i..]) == Compose(base, tokens)
    {
      assert tokens[i..][0] == tokens[i];
      assert tokens[i..][1..] == tokens[i + 1..];
      var d :- ParseSelector(tokens[i]);
      acc := Wrap(d, acc);
      i := i + 1;
    }
    assert tokens[i..] == [];
    r := Success(acc);
  }
}
