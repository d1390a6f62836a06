/**
 * The concrete requests of the controller's test suite, stated about the
 * model: the exact header, description or failure message each one gets.
 */
module Scenarios {
  import opened Wrappers
  import ServerManager
  import opened StatusNode
  import opened IllegalParameter
  import opened Composition

  /** Composing one, two, three or four known tokens nests their decorators in request order. */
  lemma Compose1(base: Node, t1: string, d1: Detail)
    requires ParseSelector(t1) == Success(d1)
    ensures Compose(base, [t1]) == Success(Decorated(d1, base))
  {
    assert [t1][1..] == [];
  }

  lemma Compose2(base: Node, t1: string, t2: string, d1: Detail, d2: Detail)
    requires ParseSelector(t1) == Success(d1) && ParseSelector(t2) == Success(d2)
    ensures Compose(base, [t1, t2]) == Success(Decorated(d2, Decorated(d1, base)))
  {
    assert [t1, t2][1..] == [t2];
    Compose1(Decorated(d1, base), t2, d2);
  }

  lemma Compose3(base: Node, t1: string, t2: string, t3: string, d1: Detail, d2: Detail, d3: Detail)
    requires ParseSelector(t1) == Success(d1) && ParseSelector(t2) == Success(d2)
    requires ParseSelector(t3) == Success(d3)
    ensures Compose(base, [t1, t2, t3]) == Success(Decorated(d3, Decorated(d2, Decorated(d1, base))))
  {
    assert [t1, t2, t3][1..] == [t2, t3];
    Compose2(Decorated(d1, base), t2, t3, d2, d3);
  }

  lemma Compose4(base: Node, t1: string, t2: string, t3: string, t4: string,
                 d1: Detail, d2: Detail, d3: Detail, d4: Detail)
    requires ParseSelector(t1) == Success(d1) && ParseSelector(t2) == Success(d2)
    requires ParseSelector(t3) == Success(d3) && ParseSelector(t4) == Success(d4)
    ensures Compose(base, [t1, t2, t3, t4])
            == Success(Decorated(d4, Decorated(d3, Decorated(d2, Decorated(d1, base)))))
  {
    assert [t1, t2, t3, t4][1..] == [t2, t3, t4];
    Compose3(Decorated(d1, base), t2, t3, t4, d2, d3, d4);
  }

  /**
   * The headers the test suite expects. These literal facts are kept in
   * lemmas of their own: proved inside a scenario, next to the fold's
   * facts, they cost the solver several times as much.
   */
  lemma Headers()
    ensures RequestedBy("Anonymous") == "Server Status requested by Anonymous"
    ensures RequestedBy("Noach") == "Server Status requested by Noach"
    ensures RequestedBy("RebYid") == "Server Status requested by RebYid"
  {
  }

  /** The failure messages the test suite expects. */
  lemma Messages()
    ensures InvalidOption("junkERROR").Message() == "Invalid details option: junkERROR"
    ensures InvalidOption("testError").Message() == "Invalid details option: testError"
  {
  }

  /** The one expected description the test suite writes as a single literal. */
  lemma OperationsOnlyText()
    ensures "Server is up" + ", and is operating normally" == "Server is up, and is operating normally"
  {
  }

  /** A request without details gets "Server is up"; the name fills the header. */
  lemma UndecoratedStatus(id: int)
    ensures StatusDesc(MakeBase(id, "Anonymous")) == "Server is up"
    ensures ContentHeader(MakeBase(id, "RebYid")) == "Server Status requested by RebYid"
  {
    Headers();
  }

  lemma OperationsOnly(id: int)
    ensures Compose(MakeBase(id, "Anonymous"), ["operations"]).Success?
    ensures ContentHeader(Compose(MakeBase(id, "Anonymous"), ["operations"]).value)
            == "Server Status requested by Anonymous"
    ensures StatusDesc(Compose(MakeBase(id, "Anonymous"), ["operations"]).value)
            == "Server is up, and is operating normally"
  {
    Compose1(MakeBase(id, "Anonymous"), "operations", Operations);
    OperationsOnlyText();
    Headers();
  }

  lemma OperationsThenExtensions(id: int)
    ensures Compose(MakeBase(id, "Anonymous"), ["operations", "extensions"]).Success?
    ensures ContentHeader(Compose(MakeBase(id, "Anonymous"), ["operations", "extensions"]).value)
            == "Server Status requested by Anonymous"
    ensures StatusDesc(Compose(MakeBase(id, "Anonymous"), ["operations", "extensions"]).value)
            == "Server is up"
             + ", and is operating normally"
             + ", and is using these extensions - [Hypervisor, Kubernetes, RAID-6]"
  {
    Compose2(MakeBase(id, "Anonymous"), "operations", "extensions", Operations, Extensions);
    ServerManager.ExtensionsText();
    Headers();
  }

  /**
   * Whatever the requester's name, the description is the same; the name
   * only fills the header ("Anonymous" and "Noach" in the test suite).
   */
  lemma OperationsExtensionsMemory(id: int, name: string)
    ensures Compose(MakeBase(id, name), ["operations", "extensions", "memory"]).Success?
    ensures ContentHeader(Compose(MakeBase(id, name), ["operations", "extensions", "memory"]).value)
            == RequestedBy(name)
    ensures StatusDesc(Compose(MakeBase(id, name), ["operations", "extensions", "memory"]).value)
            == "Server is up"
             + ", and is operating normally"
             + ", and is using these extensions - [Hypervisor, Kubernetes, RAID-6]"
             + ", and its memory is running low"
  {
    Compose3(MakeBase(id, name), "operations", "extensions", "memory", Operations, Extensions, Memory);
    ServerManager.ExtensionsText();
  }

  lemma OperationsMemoryNamed(id: int)
    ensures Compose(MakeBase(id, "Noach"), ["operations", "memory"]).Success?
    ensures ContentHeader(Compose(MakeBase(id, "Noach"), ["operations", "memory"]).value)
            == "Server Status requested by Noach"
    ensures StatusDesc(Compose(MakeBase(id, "Noach"), ["operations", "memory"]).value)
            == "Server is up"
             + ", and is operating normally"
             + ", and its memory is running low"
  {
    Compose2(MakeBase(id, "Noach"), "operations", "memory", Operations, Memory);
    Headers();
  }

  /** Request order alone decides: extensions before memory when asked so. */
  lemma ExtensionsMemoryNamed(id: int)
    ensures Compose(MakeBase(id, "Noach"), ["extensions", "memory"]).Success?
    ensures ContentHeader(Compose(MakeBase(id, "Noach"), ["extensions", "memory"]).value)
            == "Server Status requested by Noach"
    ensures StatusDesc(Compose(MakeBase(id, "Noach"), ["extensions", "memory"]).value)
            == "Server is up"
             + ", and is using these extensions - [Hypervisor, Kubernetes, RAID-6]"
             + ", and its memory is running low"
  {
    Compose2(MakeBase(id, "Noach"), "extensions", "memory", Extensions, Memory);
    ServerManager.ExtensionsText();
    Headers();
  }

  /** Duplicates are honoured: memory appears first and last. */
  lemma DuplicateMemory(id: int)
    ensures Compose(MakeBase(id, "Anonymous"), ["memory", "operations", "extensions", "memory"]).Success?
    ensures ContentHeader(Compose(MakeBase(id, "Anonymous"), ["memory", "operations", "extensions", "memory"]).value)
            == "Server Status requested by Anonymous"
    ensures StatusDesc(Compose(MakeBase(id, "Anonymous"), ["memory", "operations", "extensions", "memory"]).value)
            == "Server is up"
             + ", and its memory is running low"
             + ", and is operating normally"
             + ", and is using these extensions - [Hypervisor, Kubernetes, RAID-6]"
             + ", and its memory is running low"
  {
    Compose4(MakeBase(id, "Anonymous"), "memory", "operations", "extensions", "memory",
             Memory, Operations, Extensions, Memory);
    ServerManager.ExtensionsText();
    Headers();
  }

  /** An unknown last token fails, is named, and is answered as a client error. */
  lemma InvalidLastToken(base: Node)
    ensures Compose(base, ["memory", "operations", "junkERROR"]).Failure?
    ensures Compose(base, ["memory", "operations", "junkERROR"]).error.Message() == "Invalid details option: junkERROR"
    ensures IsClientError(Compose(base, ["memory", "operations", "junkERROR"]).error.ResponseStatus())
  {
    FirstInvalidReported(base, ["memory", "operations", "junkERROR"], 2);
    Messages();
  }

  /** A plausible-looking but unknown token fails instead of giving a partial result. */
  lemma InvalidTestErrorToken(base: Node)
    ensures Compose(base, ["memory", "operations", "testError"]).Failure?
    ensures Compose(base, ["memory", "operations", "testError"]).error.Message() == "Invalid details option: testError"
  {
    FirstInvalidReported(base, ["memory", "operations", "testError"], 2);
    Messages();
  }

  /** An unknown middle token fails and is named although a valid token follows. */
  lemma InvalidMiddleToken(base: Node)
    ensures Compose(base, ["memory", "junkERROR", "operations"]).Failure?
    ensures Compose(base, ["memory", "junkERROR", "operations"]).error.Message() == "Invalid details option: junkERROR"
  {
    FirstInvalidReported(base, ["memory", "junkERROR", "operations"], 1);
    Messages();
  }

  /** An unknown first token fails and is named although every later token is valid. */
  lemma InvalidFirstToken(base: Node)
    ensures Compose(base, ["testError", "memory", "operations"]).Failure?
    ensures Compose(base, ["testError", "memory", "operations"]).error.Message() == "Invalid details option: testError"
  {
    FirstInvalidReported(base, ["testError", "memory", "operations"], 0);
    Messages();
  }
}
