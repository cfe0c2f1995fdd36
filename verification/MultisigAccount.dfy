/**
 The multisig account's authorization: pause circuit breaker, weighted threshold,
 and the daily-limit path below it.
 */
module MultisigAccount {
  import opened Prelude
  import opened MultisigSigners
  import opened MultisigLimits

  const ALLOWED_WHILE_PAUSED: seq<string> := ["pause", "unpause", "set_guardian", "rotate_signers_and_threshold"]

  /** Only the account's own recovery calls may be authorized while it is paused. */
  predicate AllowedWhilePaused(self: Address, ctx: Context) {
    ctx.ContractCall? && ctx.contract == self && ctx.fnName in ALLOWED_WHILE_PAUSED
  }

  /** The four recovery calls of the account itself, with any arguments. */
  lemma RecoveryCalls(self: Address, ctx: Context)
    ensures AllowedWhilePaused(self, ctx) <==>
            exists fnName, args ::
              && ctx == ContractCall(self, fnName, args)
              && fnName in {"pause", "unpause", "set_guardian", "rotate_signers_and_threshold"}
  {
    if AllowedWhilePaused(self, ctx) {
      assert ctx == ContractCall(self, ctx.fnName, ctx.args);
    }
  }

  class MultisigAccount {
    const signers: SignerSet
    const limits: DailyLimits
    /** The emergency pause, as the guardian or the account left it. */
    var paused: bool

    ghost predicate Valid()
      reads this, signers, limits
    {
      signers.Valid() && limits.Valid()
    }

    constructor (signers: SignerSet, limits: DailyLimits)
      requires signers.Valid() && limits.Valid()
      ensures Valid() && this.signers == signers && this.limits == limits && !paused
    {
      this.signers, this.limits, paused := signers, limits, false;
    }

    /** Weight of the attached approvers. */
    ghost function ApprovingWeight(delegates: seq<Address>): int
      reads signers
    {
      Saturate(ListWeight(signers.weights, delegates))
    }

    /**
     `__check_auth`: accepted exactly when every delegate is a registered signer and
     either their weight reaches the threshold, or the call is affordable within the
     daily limits; while paused, only recovery calls. Calls at the threshold never
     consume an allowance.
     */
    method CheckAuth(now: nat, delegates: seq<Address>, contexts: seq<Context>) returns (r: Result<(), Error>)
      requires Valid() && limits.clock <= now
      modifies limits
      ensures Valid() && signers.Valid()
      ensures r.Ok? <==>
                && (paused ==> forall c :: c in contexts ==> AllowedWhilePaused(limits.self, c))
                && (forall a :: a in delegates ==> a in signers.markers)
                && (ApprovingWeight(delegates) >= signers.threshold ||
                    (&& delegates != [] && contexts != [] && OwnTransfers(limits.self, contexts).Some?
                     && Summable(OwnTransfers(limits.self, contexts).value)
                     && Affordable(old(limits.spending), limits.limits,
                                   Call(now, delegates, OwnTransfers(limits.self, contexts).value))))
      ensures forall day :: OnDay(now, day) && ApprovingWeight(delegates) < signers.threshold ==>
                (r.Ok? ==>
                 && OwnTransfers(limits.self, contexts).Some?
                 && AffordableOn(old(limits.log), limits.limits, day, delegates,
                                 OwnTransfers(limits.self, contexts).value))
      ensures r.Err? || ApprovingWeight(delegates) >= signers.threshold ==> unchanged(limits)
      ensures r.Ok? && ApprovingWeight(delegates) < signers.threshold ==>
                && OwnTransfers(limits.self, contexts).Some?
                && limits.log == old(limits.log) + [Call(now, delegates, OwnTransfers(limits.self, contexts).value)]
    {
      if paused {
        for i := 0 to |contexts|
          invariant forall c :: c in contexts[..i] ==> AllowedWhilePaused(limits.self, c)
        {
          if !AllowedWhilePaused(limits.self, contexts[i]) {
            return Err(Paused);
          }
          assert contexts[..i + 1] == contexts[..i] + [contexts[i]];
        }
        assert contexts[..|contexts|] == contexts;
      }
      var weight :- signers.TallyWeight(delegates);
      if weight < signers.threshold {
        r := limits.AuthorizeWithinLimits(now, delegates, contexts);
        return;
      }
      r := Ok(());
    }

    /** The account is never wedged: all signers together authorize any call while it is not paused. */
    method CheckAuthByAll(now: nat, contexts: seq<Context>) returns (r: Result<(), Error>)
      requires Valid() && limits.clock <= now && !paused
      modifies limits
      ensures r.Ok? && unchanged(limits) && Valid()
    {
      ListWeightIsSum(signers.list, signers.weights);
      assert ApprovingWeight(signers.list) >= signers.threshold;
      assert forall a :: a in signers.list ==> a in signers.markers;
      r := CheckAuth(now, signers.list, contexts);
    }

    /** While paused no transfer is ever authorized, whoever signs. */
    method CheckAuthTransferPaused(now: nat, delegates: seq<Address>, contexts: seq<Context>)
      returns (r: Result<(), Error>)
      requires Valid() && limits.clock <= now && paused
      requires exists c :: c in contexts && AsOwnTransfer(limits.self, c).Some?
      modifies limits
      ensures r.Err? && unchanged(limits)
    {
      r := CheckAuth(now, delegates, contexts);
    }
  }
}
