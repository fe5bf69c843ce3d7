/** The validity window given to an imported chain, and what it means for a selected chain. */
module ChainImport {
  import opened Snapshots
  import opened TrustPaths

  datatype Certificate = Certificate(notBefore: Instant, notAfter: Instant)

  ghost predicate Within(c: Certificate, at: Instant) {
    c.notBefore <= at < c.notAfter
  }

  function LatestStart(from: Instant, certificates: seq<Certificate>): Instant {
    if certificates == [] then from
    else
      var n := |certificates| - 1;
      var rest := LatestStart(from, certificates[..n]);
      if certificates[n].notBefore > rest then certificates[n].notBefore else rest
  }

  function EarliestEnd(to: Instant, certificates: seq<Certificate>): Instant {
    if certificates == [] then to
    else
      var n := |certificates| - 1;
      var rest := EarliestEnd(to, certificates[..n]);
      if certificates[n].notAfter < rest then certificates[n].notAfter else rest
  }

  method ImportWindow(anchor: Certificate, certificates: seq<Certificate>)
    returns (validFrom: Instant, validTo: Instant)
    ensures validFrom == LatestStart(anchor.notBefore, certificates)
    ensures validTo == EarliestEnd(anchor.notAfter, certificates)
  {
    validFrom, validTo := anchor.notBefore, anchor.notAfter;
    for k := 0 to |certificates|
      invariant validFrom == LatestStart(anchor.notBefore, certificates[..k])
      invariant validTo == EarliestEnd(anchor.notAfter, certificates[..k])
    {
      assert certificates[..k + 1][..k] == certificates[..k];
      if certificates[k].notBefore > validFrom {
        validFrom := certificates[k].notBefore;
      }
      if certificates[k].notAfter < validTo {
        validTo := certificates[k].notAfter;
      }
    }
    assert certificates[..|certificates|] == certificates;
  }

  /** The window of a chain is the intersection of the windows of its anchor and certificates. */
  lemma {:induction false} WindowIsIntersection(anchor: Certificate, certificates: seq<Certificate>,
                                                at: Instant)
    ensures LatestStart(anchor.notBefore, certificates) <= at < EarliestEnd(anchor.notAfter, certificates)
      <==> Within(anchor, at) && forall c :: c in certificates ==> Within(c, at)
  {
    if certificates != [] {
      var n := |certificates| - 1;
      WindowIsIntersection(anchor, certificates[..n], at);
      assert certificates[n] in certificates;
      assert forall c :: c in certificates <==> c in certificates[..n] || c == certificates[n];
    }
  }

  /** A selected imported chain is inside the half-open window of its anchor and every certificate. */
  lemma SelectedChainIsCurrent(service: ServiceSnapshot, at: Instant, active: set<Id>,
      candidates: seq<Id>, chains: ChainTable, anchor: Certificate, certificates: seq<Certificate>)
    requires Direct(service, at, active, candidates, chains).reachable
    requires var id := Direct(service, at, active, candidates, chains).selectedChainId;
      id in chains ==>
        && chains[id].validFrom == LatestStart(anchor.notBefore, certificates)
        && chains[id].validTo == EarliestEnd(anchor.notAfter, certificates)
    ensures Within(anchor, at) && forall c :: c in certificates ==> Within(c, at)
  {
    DirectExact(service, at, active, candidates, chains);
    WindowIsIntersection(anchor, certificates, at);
  }
}
