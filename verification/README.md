# Server status decorators, modelled in Dafny

This project models the core of the Acme server-status service: how a
detailed status description is put together. The server manager supplies
fixed facts: the server is "up", and there is one text fragment each for
operations, memory and extensions. A status node has an id, a content
header and a status description. Three decorators (operations, memory,
extensions) each wrap one inner node. A decorator passes the id and the
header through unchanged and appends its own fragment to the inner
description. A request's comma-separated `details` list is folded from
left to right over the base node, one decorator per token. Duplicates are
applied again and order is kept. The first unknown token stops the fold
with an `IllegalParameterException` whose message is
`"Invalid details option: " + token` and which is answered with HTTP 400.

Layout, one module per source concept:

- `wrappers.dfy` (`Wrappers`): the `Result` type that stands for a Java
  method that either returns or throws.
- `server_manager.dfy` (`ServerManager`): the constant status facts and
  their fragments.
- `status_node.dfy` (`StatusNode`): the node datatype
  `Base(id, header, desc) | Decorated(detail, inner)`, the three accessors,
  the base node of a request, and lemmas about chains of any depth.
- `decorators.dfy` (`Decorators`): the pass-through decorator and the
  three concrete decorators.
- `illegal_parameter.dfy` (`IllegalParameter`): the validation failure and
  its HTTP status.
- `composition.dfy` (`Composition`): token validation, the left fold
  (`Compose`), its iterative form and its laws.
- `scenarios.dfy` (`Scenarios`): the exact outcomes the controller tests
  expect, proved about the model.

Java's class hierarchy and dynamic dispatch become one datatype with
pattern matching. A decorator's inner node is a constructor argument of an
immutable value. So repeated accessor calls and repeated compositions with
equal inputs always give equal results: Dafny functions are deterministic.

The classes `ServerStatus` and `ServerStatusInterface` and the controller
that runs the fold are not part of this model. The base node
(`StatusNode.MakeBase`) and the fold (`Composition.Compose`) follow what the
controller tests observe. The base description is "Server is " followed by
the server status. The header is "Server Status requested by " followed by
the requester. Two rules of the fold are design choices that no controller
test decides; "## Left out" names them.

## Model

| member | source | states |
|---|---|---|
| ServerManager.CurrentServerStatus | src/main/java/com/acme/servermgr/ServerManager.java:15-17 | The server status is the constant "up"; `ServerManager.ServerFacts` states it |
| ServerManager.OperationsStatus | src/main/java/com/acme/servermgr/ServerManager.java:19 | The operations fragment is exactly ", and is operating normally"; `ServerManager.FragmentsStartWithLead` and `ServerManager.FragmentsPrefixFree` relate it to the other fragments |
| ServerManager.MemoryStatus | src/main/java/com/acme/servermgr/ServerManager.java:21 | The memory fragment is exactly ", and its memory is running low"; `ServerManager.FragmentsStartWithLead` and `ServerManager.FragmentsPrefixFree` relate it to the other fragments |
| ServerManager.ExtensionsStatus | src/main/java/com/acme/servermgr/ServerManager.java:23 | The extensions fragment is exactly the 66-character text of line 23, written as two literals; `ServerManager.ExtensionsText` proves the equality |
| ServerManager.IsOperatingNormally | src/main/java/com/acme/servermgr/ServerManager.java:29-32 | The server always reports that it operates normally; `ServerManager.ServerFacts` states it |
| ServerManager.ServerFacts | src/main/java/com/acme/servermgr/ServerManager.java:15-32 | The server status is always "up" and the server always reports that it is operating normally |
| ServerManager.ExtensionsText | src/main/java/com/acme/servermgr/ServerManager.java:23 | The extensions fragment is exactly ", and is using these extensions - [Hypervisor, Kubernetes, RAID-6]" |
| ServerManager.FragmentsStartWithLead | src/main/java/com/acme/servermgr/ServerManager.java:19-23 | Each of the three fragments begins with ", and " |
| ServerManager.FragmentsDistinct | src/main/java/com/acme/servermgr/ServerManager.java:19-23 | The operations, memory and extensions fragments are pairwise distinct |
| ServerManager.FragmentsPrefixFree | src/main/java/com/acme/servermgr/ServerManager.java:19-23 | No fragment is a prefix of another, so a description can be read back one fragment at a time |
| StatusNode.MakeBase | src/test/java/com/acme/statusmgr/ServerStatusControllerTests.java:45-54 | An undecorated status carries the given id, the header "Server Status requested by " plus the requester, and the description "Server is up" |
| StatusNode.Fragment | src/main/java/com/acme/servermgr/ServerManager.java:19-23 | Each detail appends the server manager's text for it (line 22 of each decorator); `StatusNode.FragmentDeterminesDetail` proves that distinct details have fragments neither of which is a prefix of the other |
| StatusNode.FragmentDeterminesDetail | src/main/java/com/acme/servermgr/ServerManager.java:19-23 | If one detail's fragment is a prefix of another's, the two details are the same |
| StatusNode.Id | src/main/java/com/acme/statusmgr/beans/ServerStatusDecorator.java:10-13 | Every decorator asks its inner node for the id, so a node at any depth reports its base node's id |
| StatusNode.ContentHeader | src/main/java/com/acme/statusmgr/beans/ServerStatusDecorator.java:15-18 | Every decorator asks its inner node for the header, so a node at any depth reports its base node's header |
| StatusNode.StatusDesc | src/main/java/com/acme/statusmgr/beans/Operations.java:21-23 | Each concrete decorator appends its fragment to the inner description (the same lines in Memory.java and Extensions.java), and the shared decorator passes the inner description through (ServerStatusDecorator.java lines 20-23); so at any depth the description is the base description followed by the applied fragments, innermost first |
| StatusNode.DetailsTextInjective | src/main/java/com/acme/servermgr/ServerManager.java:19-23 | Two different sequences of details never produce the same concatenated text |
| Decorators.Wrap | src/main/java/com/acme/statusmgr/beans/ServerStatusDecorator.java:3-23 | A decorator keeps the inner id and header; its description is the inner description, a strict prefix, followed by its fragment, and is longer by exactly the fragment's length |
| Decorators.WithOperations | src/main/java/com/acme/statusmgr/beans/Operations.java:3-24 | Operations keeps the inner id and header and appends ", and is operating normally" to the inner description, which stays a strict prefix |
| Decorators.WithMemory | src/main/java/com/acme/statusmgr/beans/Memory.java:3-24 | Memory keeps the inner id and header and appends the memory fragment to the inner description, which stays a strict prefix |
| Decorators.WithExtensions | src/main/java/com/acme/statusmgr/beans/Extensions.java:3-24 | Extensions keeps the inner id and header and appends the extensions fragment to the inner description, which stays a strict prefix |
| IllegalParameter.MessageIsReason | src/main/java/com/acme/statusmgr/beans/IllegalParameterException.java:8-9 | The failure's message is exactly the reason it was built with |
| IllegalParameter.IsClassifiedAsClientError | src/main/java/com/acme/statusmgr/beans/IllegalParameterException.java:6 | The failure is answered with a 4xx client-error status, never a 5xx server error |
| Composition.ParseSelector | src/test/java/com/acme/statusmgr/ServerStatusControllerTests.java:153-157 | A token is accepted exactly when it is one of the three names and then maps to the detail of that name; otherwise the failure message is "Invalid details option: " plus the token |
| Composition.SelectorRoundTrip | src/test/java/com/acme/statusmgr/ServerStatusControllerTests.java:64-70 | Every detail's request name is accepted and maps back to that detail |
| Composition.FirstInvalid | src/test/java/com/acme/statusmgr/ServerStatusControllerTests.java:160-172 | The index of the first unknown token: all tokens before it are known, the token at it is not, and it equals the length exactly when every token is known |
| Composition.Chain | src/test/java/com/acme/statusmgr/ServerStatusControllerTests.java:82-91 | Wrapping a base in a sequence of decorators keeps its id and header and appends the fragments in sequence order |
| Composition.Compose | src/test/java/com/acme/statusmgr/ServerStatusControllerTests.java:64-172 | The fold fails with the first unknown token and otherwise wraps the base in the requested details in request order; `Composition.ComposeSpec` proves this |
| Composition.ComposeSpec | src/test/java/com/acme/statusmgr/ServerStatusControllerTests.java:134-172 | The fold succeeds exactly when every token is known, then equals the chain of the requested details, and otherwise fails naming the first unknown token |
| Composition.ComposeEmpty | src/test/java/com/acme/statusmgr/ServerStatusControllerTests.java:64-172 | An empty token list leaves the base node unchanged; no controller test composes an empty list |
| Composition.ComposeDescription | src/test/java/com/acme/statusmgr/ServerStatusControllerTests.java:134-144 | For valid tokens the description is the base description followed by each token's fragment in request order, duplicates included, with id and header unchanged |
| Composition.FirstInvalidReported | src/test/java/com/acme/statusmgr/ServerStatusControllerTests.java:146-172 | When token k is the first unknown one, the fold fails with exactly "Invalid details option: " plus token k, whatever follows it |
| Composition.ComposeAppend | src/test/java/com/acme/statusmgr/ServerStatusControllerTests.java:134-144 | Composing a concatenation composes the second list onto the result of the first, and a failure in the first list wins |
| Composition.ComposeSnoc | src/test/java/com/acme/statusmgr/ServerStatusControllerTests.java:82-91 | Appending a token either fails with that token's error or wraps the previous result once more, so the last token's fragment comes last |
| Composition.RequesterOnlyInHeader | src/test/java/com/acme/statusmgr/ServerStatusControllerTests.java:82-102 | Requests that differ only in the requester name succeed or fail together with equal id, description and error; only the header changes |
| Composition.DescriptionDeterminesRequest | src/test/java/com/acme/statusmgr/ServerStatusControllerTests.java:114-144 | Two valid token lists that give the same description are the same list, so order and duplicates are never lost |
| Composition.ComposeLoop | src/test/java/com/acme/statusmgr/ServerStatusControllerTests.java:64-172 | The iterative fold returns exactly the recursive fold's result: it succeeds exactly when all tokens are known, and the description is then the base description followed by the requested fragments |
| Scenarios.UndecoratedStatus | src/test/java/com/acme/statusmgr/ServerStatusControllerTests.java:43-55 | Without details the description is "Server is up"; the name RebYid gives the header "Server Status requested by RebYid" |
| Scenarios.OperationsOnly | src/test/java/com/acme/statusmgr/ServerStatusControllerTests.java:65-69 | `operations` gives "Server is up, and is operating normally" with the header for Anonymous |
| Scenarios.OperationsThenExtensions | src/test/java/com/acme/statusmgr/ServerStatusControllerTests.java:73-79 | `operations,extensions` puts the operations fragment before the extensions fragment |
| Scenarios.OperationsExtensionsMemory | src/test/java/com/acme/statusmgr/ServerStatusControllerTests.java:83-101 | `operations,extensions,memory` gives the same description for any requester; the name only fills the header |
| Scenarios.OperationsMemoryNamed | src/test/java/com/acme/statusmgr/ServerStatusControllerTests.java:105-111 | `operations,memory` with the name Noach gives the expected header and description |
| Scenarios.ExtensionsMemoryNamed | src/test/java/com/acme/statusmgr/ServerStatusControllerTests.java:115-131 | `extensions,memory` puts extensions before memory: request order alone decides |
| Scenarios.DuplicateMemory | src/test/java/com/acme/statusmgr/ServerStatusControllerTests.java:135-143 | `memory,operations,extensions,memory` shows the memory fragment twice, first and last |
| Scenarios.InvalidLastToken | src/test/java/com/acme/statusmgr/ServerStatusControllerTests.java:147-150 | An unknown last token fails with "Invalid details option: junkERROR" and a client-error status |
| Scenarios.InvalidTestErrorToken | src/test/java/com/acme/statusmgr/ServerStatusControllerTests.java:154-157 | "testError" is rejected as a whole: a failure, not a partial result |
| Scenarios.InvalidMiddleToken | src/test/java/com/acme/statusmgr/ServerStatusControllerTests.java:161-164 | An unknown middle token is named although a valid token follows it |
| Scenarios.InvalidFirstToken | src/test/java/com/acme/statusmgr/ServerStatusControllerTests.java:168-171 | An unknown first token is named although every later token is valid |

## Left out

- Spring routing, MockMvc, JSON serialisation and the `@ResponseStatus` exception resolver are framework glue. Only the 400 status the annotation names is kept.
- Request-parameter parsing is left out: splitting `details` on commas, the default requester "Anonymous", and the missing-`details` error (ServerStatusControllerTests.java lines 58-62). It belongs to the request parser, which is not part of this model. The model starts from an already split token list and an explicit requester name.
- The `ServerStatus` base class, `ServerStatusInterface` and the controller are not part of this model. The base node and the fold are reconstructed from the controller tests.
- Id generation in the base class is not modelled. The id is an opaque integer carried by the base node. Java's 64-bit `long` width is not modelled, because no id arithmetic happens in this core.
- Java inheritance and dynamic dispatch are replaced by a datatype and pattern matching. `ServerStatusDecorator` is abstract. Its pass-through `getStatusDesc` is reached only through `super`, so it appears as the first operand of each decorator's concatenation (`Decorators.Wrap`) and not as a node of its own.
- `ServerManager.ExtensionsStatus` is written as the concatenation of two literals. That is the same 66-character string as the source's single literal (`ServerManager.ExtensionsText` proves it).
- Case-sensitive matching of tokens is a design choice. Tokens are matched exactly against `operations`, `memory` and `extensions`, but no controller test varies case, so the controller tests do not decide it.
- Reporting the first of several unknown tokens is a design choice. Every failing controller test has exactly one unknown token. `Composition.FirstInvalidReported` states the chosen rule: the leftmost unknown token is named.
