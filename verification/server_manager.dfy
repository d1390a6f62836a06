/**
 * The fixed status facts of the managed server. Every fact is a constant:
 * the server is always up and always operating normally, and each detail
 * contributes one fixed fragment to a status description.
 */
module ServerManager {

  /** The overall state of the server. */
  function CurrentServerStatus(): string {
    "up"
  }

  /** The fragment describing normal operation. */
  function OperationsStatus(): string {
    ", and is operating normally"
  }

  /** The fragment describing memory pressure. */
  function MemoryStatus(): string {
    ", and its memory is running low"
  }

  /**
   * The fragment listing the installed extensions. It is one 66-character
   * string; it is written as two literals only so that the verifier sees
   * its individual characters.
   */
  function ExtensionsStatus(): string {
    ", and is using these extensions - " + "[Hypervisor, Kubernetes, RAID-6]"
  }

  /** Whether the server operates normally. */
  function IsOperatingNormally(): bool {
    true
  }

  /** The lead every detail fragment starts with. */
  const FragmentLead: string := ", and "

  predicate StartsWith(s: string, prefix: string) {
    |prefix| <= |s| && s[..|prefix|] == prefix
  }

  /** The constant facts: the server is up and operating normally. */
  lemma ServerFacts()
    ensures CurrentServerStatus() == "up"
    ensures IsOperatingNormally()
  {
  }

  /** The extensions fragment is the single 66-character text the server reports. */
  lemma ExtensionsText()
    ensures ExtensionsStatus() == ", and is using these extensions - [Hypervisor, Kubernetes, RAID-6]"
  {
  }

  /** Two strings that differ at a common position are not prefixes of each other. */
  lemma DifferAt(a: string, b: string, k: nat)
    requires k < |a| && k < |b| && a[k] != b[k]
    ensures !StartsWith(a, b) && !StartsWith(b, a)
  {
    if |b| <= |a| {
      assert a[..|b|][k] == a[k];
    }
    if |a| <= |b| {
      assert b[..|a|][k] == b[k];
    }
  }

  /** Each fragment begins with ", and ". */
  lemma FragmentsStartWithLead()
    ensures StartsWith(OperationsStatus(), FragmentLead)
    ensures StartsWith(MemoryStatus(), FragmentLead)
    ensures StartsWith(ExtensionsStatus(), FragmentLead)
  {
    OperationsLead();
    MemoryLead();
    ExtensionsLead();
  }

  lemma OperationsLead()
    ensures StartsWith(OperationsStatus(), FragmentLead)
  {
    LeadOf(OperationsStatus());
  }

  lemma MemoryLead()
    ensures StartsWith(MemoryStatus(), FragmentLead)
  {
    LeadOf(MemoryStatus());
  }

  lemma ExtensionsLead()
    ensures StartsWith(ExtensionsStatus(), FragmentLead)
  {
    LeadOf(ExtensionsStatus());
  }

  /** The three fragments are pairwise distinct. */
  lemma FragmentsDistinct()
    ensures OperationsStatus() != MemoryStatus()
    ensures OperationsStatus() != ExtensionsStatus()
    ensures MemoryStatus() != ExtensionsStatus()
  {
    FragmentsPrefixFree();
    SelfPrefix(OperationsStatus());
    SelfPrefix(MemoryStatus());
  }

  lemma SelfPrefix(s: string)
    ensures StartsWith(s, s)
  {
    assert s[..|s|] == s;
  }

  /** A string whose first six characters spell ", and " starts with the lead. */
  lemma LeadOf(s: string)
    requires |s| >= 6
    requires s[0] == ',' && s[1] == ' ' && s[2] == 'a' && s[3] == 'n' && s[4] == 'd' && s[5] == ' '
    ensures StartsWith(s, FragmentLead)
  {
    assert s[..6] == FragmentLead;
  }

  /**
   * No fragment is a prefix of another one: operations and memory first
   * differ at position 7, operations and extensions at position 9, memory
   * and extensions at position 7. This is what makes a description decode
   * uniquely.
   */
  lemma FragmentsPrefixFree()
    ensures !StartsWith(OperationsStatus(), MemoryStatus()) && !StartsWith(MemoryStatus(), OperationsStatus())
    ensures !StartsWith(OperationsStatus(), ExtensionsStatus()) && !StartsWith(ExtensionsStatus(), OperationsStatus())
    ensures !StartsWith(MemoryStatus(), ExtensionsStatus()) && !StartsWith(ExtensionsStatus(), MemoryStatus())
  {
    DifferAt(OperationsStatus(), MemoryStatus(), 7);
    DifferAt(OperationsStatus(), ExtensionsStatus(), 9);
    DifferAt(MemoryStatus(), ExtensionsStatus(), 7);
  }
}
