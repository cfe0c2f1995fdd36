/**
 Daily spending limits of the multisig account. A call below the threshold is
 admitted when every context is a transfer of the account's own funds within each
 attached signer's daily allowance. Proves that a signer's record is exactly what
 was charged to that signer in the window, over every run.
 */
module MultisigLimits {
  import opened Prelude
  import opened MultisigSigners

  const WINDOW_SECONDS: nat := 86_400

  datatype Val = AddressVal(address: Address) | AmountVal(amount: int) | OtherVal

  datatype Context = ContractCall(contract: Address, fnName: string, args: seq<Val>) | CreateContract

  datatype SpendingLimit = SpendingLimit(windowStart: nat, spent: int)

  /** Records by signer and token. */
  type Spending = map<(Address, Address), SpendingLimit>

  function Lookup(m: Spending, k: (Address, Address)): Option<SpendingLimit> {
    if k in m then Some(m[k]) else None
  }

  function WindowStart(now: nat): nat {
    now - now % WINDOW_SECONDS
  }

  function SpentToday(spending: Spending, signer: Address, token: Address, window: nat): int {
    match Lookup(spending, (signer, token))
    case Some(r) => if r.windowStart == window then r.spent else 0
    case None => 0
  }

  datatype Transfer = Transfer(token: Address, amount: nat)

  /** A context that spends this account's funds: `transfer(from = self, to, amount)`. */
  function AsOwnTransfer(self: Address, ctx: Context): Option<Transfer> {
    match ctx
    case CreateContract => None
    case ContractCall(contract, fnName, args) =>
      if fnName != "transfer" || |args| != 3 then None
      else if args[0] != AddressVal(self) then None
      else if !args[2].AmountVal? || args[2].amount < 0 then None
      else Some(Transfer(contract, args[2].amount))
  }

  /** Exactly the calls `transfer(self, to, amount)` with a non-negative amount, on the token they name. */
  lemma OwnTransferIs(self: Address, ctx: Context, token: Address, amount: nat)
    ensures AsOwnTransfer(self, ctx) == Some(Transfer(token, amount)) <==>
            exists to :: ctx == ContractCall(token, "transfer", [AddressVal(self), to, AmountVal(amount)])
  {
    if AsOwnTransfer(self, ctx) == Some(Transfer(token, amount)) {
      assert ctx == ContractCall(token, "transfer", [AddressVal(self), ctx.args[1], AmountVal(amount)]);
    }
  }

  /** The transfers of a call, if it consists of nothing else. */
  function OwnTransfers(self: Address, contexts: seq<Context>): Option<seq<Transfer>> {
    if contexts == [] then Some([])
    else
      var init, last := OwnTransfers(self, contexts[..|contexts| - 1]), AsOwnTransfer(self, contexts[|contexts| - 1]);
      if init.None? || last.None? then None else Some(init.value + [last.value])
  }

  function TokenTotal(transfers: seq<Transfer>, token: Address): nat {
    if transfers == [] then 0
    else
      TokenTotal(transfers[..|transfers| - 1], token) +
      if transfers[|transfers| - 1].token == token then transfers[|transfers| - 1].amount else 0
  }

  function Tokens(transfers: seq<Transfer>): set<Address> {
    set i | 0 <= i < |transfers| :: transfers[i].token
  }

  /** What `amount` costs `signer` when every delegate is charged. */
  function Charged(delegates: seq<Address>, signer: Address, amount: nat): nat {
    if delegates == [] then 0
    else
      Charged(delegates[..|delegates| - 1], signer, amount) +
      if delegates[|delegates| - 1] == signer then amount else 0
  }

  // ---- runs ----

  /** An accepted sub-threshold call, with the ledger time it was made at. */
  datatype Call = Call(time: nat, delegates: seq<Address>, transfers: seq<Transfer>) {
    function Window(): nat {
      WindowStart(time)
    }
  }

  function Cost(c: Call, signer: Address, token: Address, window: nat): nat {
    if c.Window() == window then Charged(c.delegates, signer, TokenTotal(c.transfers, token)) else 0
  }

  /** Everything charged to `signer` for `token` in one window of a run. */
  function SpentIn(log: seq<Call>, signer: Address, token: Address, window: nat): nat {
    if log == [] then 0
    else SpentIn(log[..|log| - 1], signer, token, window) + Cost(log[|log| - 1], signer, token, window)
  }

  /** The records agree with the run, for the current window and every later one. */
  ghost predicate Faithful(spending: Spending, log: seq<Call>, window: nat) {
    && (forall k :: k in spending ==> spending[k].windowStart <= window)
    && (forall s, t, w: nat {:trigger SpentIn(log, s, t, w)} :: w >= window ==>
          SpentIn(log, s, t, w) == SpentToday(spending, s, t, w))
  }

  /** The highest limit of a token in force at an accepted call of one window; zero without any. */
  function LimitIn(log: seq<Call>, inForce: seq<map<Address, int>>, token: Address, window: nat): int
    requires |log| == |inForce|
  {
    if log == [] then 0
    else
      var last := |log| - 1;
      Max(LimitIn(log[..last], inForce[..last], token, window),
          if log[last].Window() == window && token in inForce[last] then inForce[last][token] else 0)
  }

  /** In no window did any signer spend more of a token than a limit in force in that very window. */
  ghost predicate WithinLimits(log: seq<Call>, inForce: seq<map<Address, int>>) {
    && |log| == |inForce|
    && forall s, t, w: nat {:trigger SpentIn(log, s, t, w)} :: SpentIn(log, s, t, w) <= LimitIn(log, inForce, t, w)
  }

  /** At every accepted call of the window, the token's limit, if it had one, was at most `limit`. */
  predicate LimitedBy(log: seq<Call>, inForce: seq<map<Address, int>>, token: Address, window: nat, limit: nat)
    requires |log| == |inForce|
  {
    forall i :: 0 <= i < |log| && log[i].Window() == window && token in inForce[i] ==> inForce[i][token] <= limit
  }

  lemma {:induction false} HighestLimit(
    log: seq<Call>, inForce: seq<map<Address, int>>, token: Address, window: nat, limit: nat)
    requires |log| == |inForce| && LimitedBy(log, inForce, token, window, limit)
    ensures LimitIn(log, inForce, token, window) <= limit
    decreases |log|
  {
    if log != [] {
      HighestLimit(log[..|log| - 1], inForce[..|log| - 1], token, window, limit);
    }
  }

  // ---- days ----

  /** Day `day` of ledger time is 86,400 seconds long. */
  predicate OnDay(time: nat, day: nat) {
    86_400 * day <= time < 86_400 * (day + 1)
  }

  /** Everything charged to `signer` for `token` by the calls of one day of a run. */
  function SpentOn(log: seq<Call>, signer: Address, token: Address, day: nat): nat {
    if log == [] then 0
    else
      var last := log[|log| - 1];
      SpentOn(log[..|log| - 1], signer, token, day) +
      if OnDay(last.time, day) then Charged(last.delegates, signer, TokenTotal(last.transfers, token)) else 0
  }

  lemma DayIsWindow(time: nat, day: nat)
    ensures OnDay(time, day) <==> WindowStart(time) == 86_400 * day
  {
  }

  lemma {:induction false} SpentOnDay(log: seq<Call>, signer: Address, token: Address, day: nat)
    ensures SpentOn(log, signer, token, day) == SpentIn(log, signer, token, 86_400 * day)
  {
    if log != [] {
      SpentOnDay(log[..|log| - 1], signer, token, day);
      DayIsWindow(log[|log| - 1].time, day);
    }
  }

  /**
   The daily limit: if no accepted call of a day had a higher limit for the token than `limit`,
   then no signer has spent more than `limit` of it on that day.
   */
  lemma FixedLimit(log: seq<Call>, inForce: seq<map<Address, int>>, token: Address, day: nat, limit: nat)
    requires WithinLimits(log, inForce)
    requires forall i :: 0 <= i < |log| && OnDay(log[i].time, day) && token in inForce[i] ==> inForce[i][token] <= limit
    ensures forall s :: SpentOn(log, s, token, day) <= limit
  {
    var window := 86_400 * day;
    forall i | 0 <= i < |log| && log[i].Window() == window && token in inForce[i] ensures inForce[i][token] <= limit {
      DayIsWindow(log[i].time, day);
    }
    HighestLimit(log, inForce, token, window, limit);
    forall s ensures SpentOn(log, s, token, day) <= limit {
      SpentOnDay(log, s, token, day);
    }
  }

  /** Every delegate can pay for every token of the call out of what is left of that day's limit. */
  ghost predicate AffordableOn(
    log: seq<Call>, limits: map<Address, int>, day: nat, delegates: seq<Address>, transfers: seq<Transfer>)
  {
    && (forall t :: t in Tokens(transfers) ==> t in limits)
    && (forall s, t :: s in delegates && t in Tokens(transfers) ==>
          SpentOn(log, s, t, day) + Charged(delegates, s, TokenTotal(transfers, t)) <= limits[t])
  }

  /** The effect of an accepted call on the records. */
  ghost predicate Recorded(before: Spending, after: Spending, c: Call) {
    forall s, t {:trigger Lookup(after, (s, t))} ::
      Lookup(after, (s, t)) ==
      if s in c.delegates && t in Tokens(c.transfers)
      then Some(SpendingLimit(c.Window(),
                              SpentToday(before, s, t, c.Window()) +
                              Charged(c.delegates, s, TokenTotal(c.transfers, t))))
      else Lookup(before, (s, t))
  }

  lemma {:induction false} NotCharged(delegates: seq<Address>, signer: Address, amount: nat)
    requires signer !in delegates || amount == 0
    ensures Charged(delegates, signer, amount) == 0
  {
    if delegates != [] {
      NotCharged(delegates[..|delegates| - 1], signer, amount);
    }
  }

  lemma {:induction false} NoTotal(transfers: seq<Transfer>, token: Address)
    requires token !in Tokens(transfers)
    ensures TokenTotal(transfers, token) == 0
  {
    if transfers != [] {
      var k := |transfers| - 1;
      assert transfers[k].token in Tokens(transfers);
      assert forall x :: x in Tokens(transfers[..k]) ==> x in Tokens(transfers);
      NoTotal(transfers[..k], token);
    }
  }

  /** One (signer, token, window) of a recorded call. */
  lemma RecordedAt(
    before: Spending, after: Spending, c: Call, log: seq<Call>, window: nat, s: Address, t: Address, w: nat)
    requires Faithful(before, log, window) && window <= c.Window() && Recorded(before, after, c) && c.Window() <= w
    ensures SpentIn(log + [c], s, t, w) == SpentToday(after, s, t, w)
  {
    assert (log + [c])[..|log|] == log;
    assert SpentIn(log, s, t, w) == SpentToday(before, s, t, w);
    assert Lookup(after, (s, t)) == Lookup(after, (s, t));
    if s !in c.delegates {
      NotCharged(c.delegates, s, TokenTotal(c.transfers, t));
    } else if t !in Tokens(c.transfers) {
      NoTotal(c.transfers, t);
      NotCharged(c.delegates, s, 0);
    }
  }

  /** An accepted call keeps the records equal to the sums over the run. */
  lemma FaithfulAfter(before: Spending, after: Spending, c: Call, log: seq<Call>, window: nat)
    requires Faithful(before, log, window) && window <= c.Window() && Recorded(before, after, c)
    ensures Faithful(after, log + [c], c.Window())
  {
    forall s, t, w: nat | w >= c.Window() ensures SpentIn(log + [c], s, t, w) == SpentToday(after, s, t, w) {
      RecordedAt(before, after, c, log, window, s, t, w);
    }
    forall k | k in after ensures after[k].windowStart <= c.Window() {
      assert Lookup(after, (k.0, k.1)) == Some(after[k]);
    }
  }

  /** Every charge of the call stays within the limits in force. */
  ghost predicate Affordable(spending: Spending, limits: map<Address, int>, c: Call) {
    && (forall t :: t in Tokens(c.transfers) ==> t in limits)
    && (forall s, t :: s in c.delegates && t in Tokens(c.transfers) ==>
          SpentToday(spending, s, t, c.Window()) + Charged(c.delegates, s, TokenTotal(c.transfers, t)) <= limits[t])
  }

  /** With faithful records, affordable means affordable out of what the run has left of the day. */
  lemma AffordableThatDay(spending: Spending, limits: map<Address, int>, c: Call, log: seq<Call>, window: nat, day: nat)
    requires Faithful(spending, log, window) && window <= c.Window() && OnDay(c.time, day)
    ensures Affordable(spending, limits, c) <==> AffordableOn(log, limits, day, c.delegates, c.transfers)
  {
    DayIsWindow(c.time, day);
    forall s, t ensures SpentOn(log, s, t, day) == SpentToday(spending, s, t, c.Window()) {
      SpentOnDay(log, s, t, day);
      assert SpentIn(log, s, t, c.Window()) == SpentToday(spending, s, t, c.Window());
    }
  }

  /** An affordable call keeps every window within a limit in force in it. */
  lemma LimitsAfter(
    spending: Spending, limits: map<Address, int>, c: Call, log: seq<Call>, inForce: seq<map<Address, int>>,
    window: nat)
    requires Faithful(spending, log, window) && window <= c.Window() && WithinLimits(log, inForce)
    requires Affordable(spending, limits, c)
    ensures WithinLimits(log + [c], inForce + [limits])
  {
    var log', inForce' := log + [c], inForce + [limits];
    assert log'[..|log|] == log && inForce'[..|log|] == inForce;
    forall s, t, w: nat ensures SpentIn(log', s, t, w) <= LimitIn(log', inForce', t, w) {
      assert SpentIn(log, s, t, w) <= LimitIn(log, inForce, t, w);
      if s !in c.delegates {
        NotCharged(c.delegates, s, TokenTotal(c.transfers, t));
      } else if t !in Tokens(c.transfers) {
        NoTotal(c.transfers, t);
        NotCharged(c.delegates, s, 0);
      } else if w == c.Window() {
        assert SpentIn(log, s, t, w) == SpentToday(spending, s, t, w);
      }
    }
  }

  // ---- the authorization path ----

  lemma {:induction false} ChargedPrefix(delegates: seq<Address>, signer: Address, amount: nat, k: nat)
    requires k <= |delegates|
    ensures Charged(delegates[..k], signer, amount) <= Charged(delegates, signer, amount)
    decreases |delegates| - k
  {
    if k < |delegates| {
      ChargedPrefix(delegates, signer, amount, k + 1);
      assert delegates[..k + 1][..k] == delegates[..k];
    } else {
      assert delegates[..k] == delegates;
    }
  }

  lemma {:induction false} TotalPrefix(transfers: seq<Transfer>, token: Address, k: nat)
    requires k <= |transfers|
    ensures TokenTotal(transfers[..k], token) <= TokenTotal(transfers, token)
    decreases |transfers| - k
  {
    if k < |transfers| {
      TotalPrefix(transfers, token, k + 1);
      assert transfers[..k + 1][..k] == transfers[..k];
    } else {
      assert transfers[..k] == transfers;
    }
  }

  /** `after` is `before` with one token's total charged to every delegate. */
  ghost predicate TokenCharged(
    before: Spending, after: Spending, delegates: seq<Address>, token: Address, amount: nat, window: nat)
  {
    forall s, t {:trigger Lookup(after, (s, t))} ::
      Lookup(after, (s, t)) ==
      if s in delegates && t == token
      then Some(SpendingLimit(window, SpentToday(before, s, token, window) + Charged(delegates, s, amount)))
      else Lookup(before, (s, t))
  }

  /** Charging one more delegate. */
  lemma TokenChargedStep(
    before: Spending, sp: Spending, delegates: seq<Address>, i: nat, token: Address, amount: nat, window: nat)
    requires i < |delegates| && TokenCharged(before, sp, delegates[..i], token, amount, window)
    ensures var signer := delegates[i];
            var next := SpentToday(sp, signer, token, window) + amount;
            && next == SpentToday(before, signer, token, window) + Charged(delegates[..i + 1], signer, amount)
            && TokenCharged(before, sp[(signer, token) := SpendingLimit(window, next)], delegates[..i + 1], token,
                            amount, window)
  {
    var signer := delegates[i];
    assert delegates[..i + 1] == delegates[..i] + [signer];
    assert delegates[..i + 1][..i] == delegates[..i];
    if signer !in delegates[..i] {
      NotCharged(delegates[..i], signer, amount);
    }
    assert Lookup(sp, (signer, token)) == Lookup(sp, (signer, token));
    var after := sp[(signer, token) := SpendingLimit(window, SpentToday(sp, signer, token, window) + amount)];
    forall s, t
      ensures Lookup(after, (s, t)) ==
              if s in delegates[..i + 1] && t == token
              then Some(SpendingLimit(window,
                                      SpentToday(before, s, token, window) + Charged(delegates[..i + 1], s, amount)))
              else Lookup(before, (s, t))
    {
      if (s, t) != (signer, token) {
        assert Lookup(after, (s, t)) == Lookup(sp, (s, t));
      }
    }
  }

  /** What a delegate's record for one token becomes. */
  function NextSpent(
    spending: Spending, delegates: seq<Address>, s: Address, token: Address, amount: nat, window: nat): int
  {
    SpentToday(spending, s, token, window) + Charged(delegates, s, amount)
  }

  ghost predicate Afford(
    spending: Spending, delegates: seq<Address>, token: Address, amount: nat, limit: int, window: nat)
  {
    forall s :: s in delegates ==> NextSpent(spending, delegates, s, token, amount, window) <= limit
  }

  lemma AffordStep(
    spending: Spending, delegates: seq<Address>, i: nat, longer: seq<Address>, token: Address, amount: nat,
    limit: int, window: nat)
    requires i < |delegates| && longer == delegates[..i + 1]
    requires Afford(spending, delegates[..i], token, amount, limit, window)
    requires NextSpent(spending, longer, delegates[i], token, amount, window) <= limit
    ensures Afford(spending, longer, token, amount, limit, window)
  {
    assert longer == delegates[..i] + [delegates[i]];
    assert longer[..i] == delegates[..i];
    forall s | s in longer ensures NextSpent(spending, longer, s, token, amount, window) <= limit {
      if s != delegates[i] {
        assert NextSpent(spending, delegates[..i], s, token, amount, window) <= limit;
      }
    }
  }

  /** The inner loop: charge one token's total to every delegate in turn. */
  method ChargeDelegates(
    spending: Spending, delegates: seq<Address>, token: Address, amount: nat, limit: int, window: nat)
    returns (r: Result<Spending, Error>)
    ensures r.Ok? <==> Afford(spending, delegates, token, amount, limit, window)
    ensures r.Err? ==> r.error == DailyLimitExceeded
    ensures r.Ok? ==> TokenCharged(spending, r.value, delegates, token, amount, window)
  {
    var sp := spending;
    for i := 0 to |delegates|
      invariant Afford(spending, delegates[..i], token, amount, limit, window)
      invariant TokenCharged(spending, sp, delegates[..i], token, amount, window)
    {
      var signer := delegates[i];
      TokenChargedStep(spending, sp, delegates, i, token, amount, window);
      var next := SpentToday(sp, signer, token, window) + amount;
      if next > limit {
        ChargedPrefix(delegates, signer, amount, i + 1);
        assert NextSpent(spending, delegates, signer, token, amount, window) > limit;
        return Err(DailyLimitExceeded);
      }
      AffordStep(spending, delegates, i, delegates[..i + 1], token, amount, limit, window);
      sp := sp[(signer, token) := SpendingLimit(window, next)];
    }
    assert delegates[..|delegates|] == delegates;
    r := Ok(sp);
  }

  ghost predicate TotalsOf(totals: map<Address, nat>, transfers: seq<Transfer>) {
    totals.Keys == Tokens(transfers) && forall t :: t in totals ==> totals[t] == TokenTotal(transfers, t)
  }

  lemma TotalsAfter(totals: map<Address, nat>, transfers: seq<Transfer>, x: Transfer)
    requires TotalsOf(totals, transfers)
    ensures var sum := (if x.token in totals then totals[x.token] else 0) + x.amount;
            && sum == TokenTotal(transfers + [x], x.token)
            && TotalsOf(totals[x.token := sum], transfers + [x])
            && (Summable(transfers) && sum <= I128_MAX ==> Summable(transfers + [x]))
  {
    TotalsStep(transfers, x);
  }

  /** A prefix that overflows a total makes the whole call overflow. */
  lemma NotSummable(self: Address, contexts: seq<Context>, i: nat, transfers: seq<Transfer>, x: Transfer)
    requires i < |contexts| && OwnTransfers(self, contexts[..i]) == Some(transfers)
    requires AsOwnTransfer(self, contexts[i]) == Some(x)
    requires TokenTotal(transfers + [x], x.token) > I128_MAX
    ensures OwnTransfers(self, contexts).Some? ==> !Summable(OwnTransfers(self, contexts).value)
  {
    OwnTransfersStep(self, contexts, i);
    if OwnTransfers(self, contexts).Some? {
      var all := OwnTransfers(self, contexts).value;
      TotalPrefix(all, x.token, i + 1);
      assert all[..i + 1][i] == x && all[i].token in Tokens(all);
    }
  }

  /** Sum the transfers per token over all contexts of the call. */
  method SumTransfers(self: Address, contexts: seq<Context>)
    returns (r: Result<map<Address, nat>, Error>, ghost transfers: seq<Transfer>)
    ensures r.Ok? <==> OwnTransfers(self, contexts).Some? && Summable(OwnTransfers(self, contexts).value)
    ensures r.Ok? ==> OwnTransfers(self, contexts) == Some(transfers)
    ensures r.Ok? ==> TotalsOf(r.value, transfers)
    ensures r.Err? ==> r.error in {InsufficientSignatures, DailyLimitExceeded}
  {
    var totals: map<Address, nat> := map[];
    transfers := [];
    for i := 0 to |contexts|
      invariant OwnTransfers(self, contexts[..i]) == Some(transfers)
      invariant TotalsOf(totals, transfers) && Summable(transfers)
    {
      OwnTransfersStep(self, contexts, i);
      var transfer := AsOwnTransfer(self, contexts[i]);
      if transfer.None? {
        return Err(InsufficientSignatures), transfers;
      }
      var Transfer(token, amount) := transfer.value;
      var soFar := if token in totals then totals[token] else 0;
      TotalsAfter(totals, transfers, transfer.value);
      if soFar + amount > I128_MAX {
        NotSummable(self, contexts, i, transfers, transfer.value);
        return Err(DailyLimitExceeded), transfers;
      }
      totals := totals[token := soFar + amount];
      transfers := transfers + [transfer.value];
    }
    assert contexts[..|contexts|] == contexts;
    r := Ok(totals);
  }

  /** Every token's total fits the amount type. */
  predicate Summable(transfers: seq<Transfer>) {
    forall t :: t in Tokens(transfers) ==> TokenTotal(transfers, t) <= I128_MAX
  }

  /** The transfers of a prefix of the contexts are a prefix of the transfers. */
  lemma {:induction false} OwnTransfersPrefix(self: Address, contexts: seq<Context>, k: nat)
    requires k <= |contexts| && OwnTransfers(self, contexts).Some?
    ensures |OwnTransfers(self, contexts).value| == |contexts|
    ensures OwnTransfers(self, contexts[..k]) == Some(OwnTransfers(self, contexts).value[..k])
    decreases |contexts|
  {
    if k < |contexts| {
      var init := contexts[..|contexts| - 1];
      OwnTransfersPrefix(self, init, k);
      assert init[..k] == contexts[..k];
      assert OwnTransfers(self, contexts).value[..k] == OwnTransfers(self, init).value[..k];
    } else {
      assert contexts[..k] == contexts;
      if contexts != [] {
        OwnTransfersPrefix(self, contexts[..k - 1], k - 1);
      }
      assert OwnTransfers(self, contexts).value[..k] == OwnTransfers(self, contexts).value;
    }
  }

  lemma OwnTransfersStep(self: Address, contexts: seq<Context>, i: nat)
    requires i < |contexts| && OwnTransfers(self, contexts[..i]).Some?
    ensures OwnTransfers(self, contexts[..i + 1]) ==
            match AsOwnTransfer(self, contexts[i])
            case None => None
            case Some(x) => Some(OwnTransfers(self, contexts[..i]).value + [x])
    ensures AsOwnTransfer(self, contexts[i]).None? ==> OwnTransfers(self, contexts).None?
    ensures OwnTransfers(self, contexts).Some? ==>
              && |OwnTransfers(self, contexts).value| == |contexts|
              && OwnTransfers(self, contexts[..i + 1]) == Some(OwnTransfers(self, contexts).value[..i + 1])
  {
    assert contexts[..i + 1][..i] == contexts[..i];
    if OwnTransfers(self, contexts).Some? {
      OwnTransfersPrefix(self, contexts, i + 1);
    }
  }

  lemma TotalsStep(transfers: seq<Transfer>, x: Transfer)
    ensures Tokens(transfers + [x]) == Tokens(transfers) + {x.token}
    ensures forall t ::
              TokenTotal(transfers + [x], t) == TokenTotal(transfers, t) + if t == x.token then x.amount else 0
    ensures x.token !in Tokens(transfers) ==> TokenTotal(transfers, x.token) == 0
  {
    var longer := transfers + [x];
    assert longer[..|transfers|] == transfers;
    assert longer[|transfers|].token in Tokens(longer);
    assert forall i :: 0 <= i < |transfers| ==> longer[i] == transfers[i];
    if x.token !in Tokens(transfers) {
      NoTotal(transfers, x.token);
    }
  }

  /** The outer loop: charge every token's total, in any order of the tokens. */
  method ChargeTokens(spending: Spending, limits: map<Address, int>, delegates: seq<Address>,
                      totals: map<Address, nat>, now: nat, ghost transfers: seq<Transfer>)
    returns (r: Result<Spending, Error>)
    requires TotalsOf(totals, transfers)
    ensures r.Ok? ==> Affordable(spending, limits, Call(now, delegates, transfers))
    ensures r.Ok? ==> Recorded(spending, r.value, Call(now, delegates, transfers))
    ensures r.Err? ==> !Affordable(spending, limits, Call(now, delegates, transfers))
    ensures r.Err? ==> r.error in {InsufficientSignatures, DailyLimitExceeded}
  {
    ghost var c := Call(now, delegates, transfers);
    var sp := spending;
    var todo := totals.Keys;
    ghost var done: set<Address> := {};
    while todo != {}
      invariant done !! todo && done + todo == Tokens(transfers)
      invariant PartlyRecorded(spending, sp, c, done) && PartlyAffordable(spending, limits, c, done)
      decreases todo
    {
      var token :| token in todo;
      if token !in limits {
        return Err(InsufficientSignatures);
      }
      var charged := ChargeDelegates(sp, delegates, token, totals[token], limits[token], WindowStart(now));
      SameSoFar(spending, sp, c, done, token);
      if charged.Err? {
        NotAffordable(spending, limits, c, token);
        return Err(charged.error);
      }
      RecordedStep(spending, sp, charged.value, c, done, token);
      sp := charged.value;
      todo := todo - {token};
      done := done + {token};
    }
    assert done == Tokens(transfers);
    r := Ok(sp);
  }

  ghost predicate PartlyRecorded(before: Spending, after: Spending, c: Call, done: set<Address>) {
    forall s, t {:trigger Lookup(after, (s, t))} ::
      Lookup(after, (s, t)) ==
      if s in c.delegates && t in done
      then Some(SpendingLimit(c.Window(),
                              SpentToday(before, s, t, c.Window()) +
                              Charged(c.delegates, s, TokenTotal(c.transfers, t))))
      else Lookup(before, (s, t))
  }

  ghost predicate TokenAffordable(spending: Spending, limits: map<Address, int>, c: Call, t: Address) {
    t in limits && Afford(spending, c.delegates, t, TokenTotal(c.transfers, t), limits[t], c.Window())
  }

  ghost predicate PartlyAffordable(spending: Spending, limits: map<Address, int>, c: Call, done: set<Address>) {
    forall t :: t in done ==> TokenAffordable(spending, limits, c, t)
  }

  /** A token not charged yet still has its old records. */
  lemma SameSoFar(before: Spending, sp: Spending, c: Call, done: set<Address>, token: Address)
    requires PartlyRecorded(before, sp, c, done) && token !in done
    ensures forall s {:trigger SpentToday(sp, s, token, c.Window())} ::
              SpentToday(sp, s, token, c.Window()) == SpentToday(before, s, token, c.Window())
    ensures var amount := TokenTotal(c.transfers, token);
            forall limit {:trigger Afford(before, c.delegates, token, amount, limit, c.Window())} ::
              Afford(sp, c.delegates, token, amount, limit, c.Window()) <==>
              Afford(before, c.delegates, token, amount, limit, c.Window())
  {
    forall s ensures SpentToday(sp, s, token, c.Window()) == SpentToday(before, s, token, c.Window()) {
      assert Lookup(sp, (s, token)) == Lookup(before, (s, token));
    }
    var amount := TokenTotal(c.transfers, token);
    forall s
      ensures NextSpent(sp, c.delegates, s, token, amount, c.Window()) ==
              NextSpent(before, c.delegates, s, token, amount, c.Window())
    {
      assert SpentToday(sp, s, token, c.Window()) == SpentToday(before, s, token, c.Window());
    }
  }

  lemma RecordedStep(before: Spending, sp: Spending, after: Spending, c: Call, done: set<Address>, token: Address)
    requires PartlyRecorded(before, sp, c, done) && token !in done
    requires TokenCharged(sp, after, c.delegates, token, TokenTotal(c.transfers, token), c.Window())
    ensures PartlyRecorded(before, after, c, done + {token})
  {
    SameSoFar(before, sp, c, done, token);
    forall s, t
      ensures Lookup(after, (s, t)) ==
              if s in c.delegates && t in done + {token}
              then Some(SpendingLimit(c.Window(),
                                      SpentToday(before, s, t, c.Window()) +
                                      Charged(c.delegates, s, TokenTotal(c.transfers, t))))
              else Lookup(before, (s, t))
    {
      assert Lookup(after, (s, t)) == Lookup(after, (s, t));
      assert Lookup(sp, (s, t)) == Lookup(sp, (s, t));
      assert SpentToday(sp, s, token, c.Window()) == SpentToday(before, s, token, c.Window());
    }
  }

  lemma NotAffordable(spending: Spending, limits: map<Address, int>, c: Call, token: Address)
    requires token in Tokens(c.transfers) && !TokenAffordable(spending, limits, c, token)
    ensures !Affordable(spending, limits, c)
  {
  }

  /** The allowances, records and history of one account. */
  class DailyLimits {
    const self: Address
    var limits: map<Address, int>
    var spending: Spending
    /** Accepted sub-threshold calls, the limits in force at each, and the time of the last one. */
    ghost var log: seq<Call>
    ghost var clock: nat
    ghost var inForce: seq<map<Address, int>>

    ghost predicate Valid()
      reads this
    {
      && Faithful(spending, log, WindowStart(clock)) && WithinLimits(log, inForce)
      && (forall t :: t in limits ==> 0 < limits[t])
    }

    constructor (self: Address)
      ensures Valid() && this.self == self && limits == map[] && log == [] && clock == 0
    {
      this.self := self;
      limits, spending, log, clock, inForce := map[], map[], [], 0, [];
    }

    /** Configure a token's daily allowance; zero removes it. */
    method SetDailyLimit(token: Address, limit: int) returns (r: Result<(), Error>)
      requires Valid()
      modifies this`limits
      ensures Valid()
      ensures r == if limit < 0 then Err(InvalidLimit) else Ok(())
      ensures limits == if limit < 0 then old(limits)
                        else if limit == 0 then old(limits) - {token}
                        else old(limits)[token := limit]
    {
      if limit < 0 {
        return Err(InvalidLimit);
      }
      if limit == 0 {
        limits := limits - {token};
      } else {
        limits := limits[token := limit];
      }
      r := Ok(());
    }

    /**
     Authorize a call below the threshold. Accepted exactly when it consists of own
     transfers that every delegate can afford; refused calls leave no trace.
     */
    method AuthorizeWithinLimits(now: nat, delegates: seq<Address>, contexts: seq<Context>)
      returns (r: Result<(), Error>)
      requires Valid() && clock <= now
      modifies this`spending, this`log, this`clock, this`inForce
      ensures Valid() && (r.Err? ==> unchanged(this))
      ensures r.Ok? <==>
                && delegates != [] && contexts != [] && OwnTransfers(self, contexts).Some?
                && Summable(OwnTransfers(self, contexts).value)
                && Affordable(old(spending), limits, Call(now, delegates, OwnTransfers(self, contexts).value))
      ensures forall day :: OnDay(now, day) ==>
                (r.Ok? <==>
                 && delegates != [] && contexts != [] && OwnTransfers(self, contexts).Some?
                 && Summable(OwnTransfers(self, contexts).value)
                 && AffordableOn(old(log), limits, day, delegates, OwnTransfers(self, contexts).value))
      ensures r.Ok? ==>
                && clock == now && inForce == old(inForce) + [limits]
                && log == old(log) + [Call(now, delegates, OwnTransfers(self, contexts).value)]
      ensures r.Err? ==> r.error in {InsufficientSignatures, DailyLimitExceeded}
    {
      if delegates == [] || contexts == [] {
        return Err(InsufficientSignatures);
      }
      var totals, transfers := SumTransfers(self, contexts);
      if totals.Err? {
        return Err(totals.error);
      }
      ghost var c := Call(now, delegates, transfers);
      forall day | OnDay(now, day)
        ensures Affordable(spending, limits, c) <==> AffordableOn(log, limits, day, delegates, transfers)
      {
        AffordableThatDay(spending, limits, c, log, WindowStart(clock), day);
      }
      var charged := ChargeTokens(spending, limits, delegates, totals.value, now, transfers);
      if charged.Err? {
        return Err(charged.error);
      }
      FaithfulAfter(spending, charged.value, c, log, WindowStart(clock));
      LimitsAfter(spending, limits, c, log, inForce, WindowStart(clock));
      spending, log, inForce, clock := charged.value, log + [c], inForce + [limits], now;
      r := Ok(());
    }

    /** What a signer has spent today is what the calls of this day charged, within a limit in force on it. */
    method GetSpentToday(now: nat, signer: Address, token: Address) returns (spent: int)
      requires Valid() && clock <= now
      ensures forall day :: OnDay(now, day) ==> spent == SpentOn(log, signer, token, day)
      ensures |log| == |inForce| && spent <= LimitIn(log, inForce, token, WindowStart(now))
    {
      assert SpentIn(log, signer, token, WindowStart(now)) == SpentToday(spending, signer, token, WindowStart(now));
      spent := SpentToday(spending, signer, token, WindowStart(now));
      forall day | OnDay(now, day) ensures spent == SpentOn(log, signer, token, day) {
        DayIsWindow(now, day);
        SpentOnDay(log, signer, token, day);
      }
    }
  }
}
