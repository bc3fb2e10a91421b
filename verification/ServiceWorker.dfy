/** The service worker's own state: the generation counter and the projection it guards. */
module ServiceWorkerImpl {
  import opened Prelude
  import opened OwnedTargets
  import opened SyncProtocol

  class ServiceWorker {
    var syncGeneration: nat
    const ownedTargets: OwnedTargetIndex

    constructor ()
      ensures syncGeneration == 0 && ownedTargets.byVariant == map[] && ownedTargets.currentOwner == DETACHED
      ensures fresh(ownedTargets)
    {
      syncGeneration := 0;
      ownedTargets := new OwnedTargetIndex();
    }

    /** The worker's memory is what the protocol state says it is. */
    predicate Shows(s: State)
      reads this, ownedTargets
    {
      syncGeneration == s.gen && ownedTargets.byVariant == s.index && ownedTargets.currentOwner == s.owner
    }

    /** Up to the first await of a sync. */
    method SyncBegins(ghost s: State, ghost i: nat) returns (gen: nat)
      requires Shows(s) && i < |s.tasks|
      modifies this
      ensures Shows(BeginSync(s, i)) && gen == BeginSync(s, i).tasks[i].gen
    {
      syncGeneration := syncGeneration + 1;
      gen := syncGeneration;
    }

    /** From the guard's credential read to the end of the sync, in one event-loop task. */
    method SyncConcludes(gen: nat, began: Option<Credential>, result: Option<seq<Target>>, seen: Option<Credential>,
                         ghost since: nat, ghost s: State, ghost i: nat) returns (installed: bool)
      requires Shows(s) && i < |s.tasks| && s.tasks[i].gen == gen && s.tasks[i].phase == SyncCheck(began, result)
      modifies ownedTargets
      ensures Shows(Conclude(s, i, seen, since))
      ensures installed <==> gen == s.gen && Fingerprint(seen) == Fingerprint(began)
      ensures Plain(seen) && Plain(began) ==> (installed <==> gen == s.gen && Same(seen, began))
      ensures !installed ==> ownedTargets.byVariant == old(ownedTargets.byVariant)
      ensures installed ==> ownedTargets.currentOwner.generation == gen
      ensures installed && began.Some? ==> ownedTargets.currentOwner.account == Some(began.value.account)
      ensures installed && began.Some? && result.Some? ==> ownedTargets.byVariant == ByVariant(result.value)
      ensures installed && (began.None? || result.None?) ==> ownedTargets.byVariant == map[]
    {
      FingerprintTells(seen, began);
      installed := gen == syncGeneration && Fingerprint(seen) == Fingerprint(began);
      if !installed { return; }
      if began.None? {
        ownedTargets.ReplaceAll([], Owner(gen, None));
      } else if result.None? {
        ownedTargets.ReplaceAll([], Owner(gen, Some(began.value.account)));
      } else {
        ownedTargets.ReplaceAll(result.value, Owner(gen, Some(began.value.account)));
      }
    }

    /** A pairing's credential write has completed: every sync in flight becomes stale. */
    method PairingStored(ghost s: State, ghost i: nat)
      requires Shows(s) && i < |s.tasks| && s.tasks[i].phase.PairWrite? && s.tasks[i].mail.Some?
      modifies this
      ensures Shows(Step(s, Resume(i)).value)
    {
      syncGeneration := syncGeneration + 1;
    }

    /** A revoke: stale everything and clear, before any storage call. */
    method Revoke(ghost s: State)
      requires Shows(s)
      modifies this, ownedTargets
      ensures Shows(Step(s, StartRevoke).value)
      ensures ownedTargets.byVariant == map[]
    {
      syncGeneration := syncGeneration + 1;
      ownedTargets.ReplaceAll([], Owner(syncGeneration, None));
    }
  }
}
