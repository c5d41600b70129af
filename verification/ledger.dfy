/** Sequences of transactions applied one after another, and what they do to
    balances: every balance is its starting value plus the accepted deposits
    minus the accepted withdrawals, and no balance ever goes negative. */
module Ledger {
  import opened Wrappers
  import opened Uuids
  import opened Requests
  import opened WalletService

  /** One call of the engine: the request and what the call returned. */
  datatype Step = Step(request: WalletRequest, result: Result<Outcome, ServiceError>)

  /** The store after a run of calls, and the record of each call. */
  datatype Trace = Trace(final: Store, steps: seq<Step>)

  predicate AllAdmissible(reqs: seq<WalletRequest>)
  {
    forall i :: 0 <= i < |reqs| ==> Admissible(reqs[i])
  }

  /** Applies the requests in order; a failed call leaves the store as it was. */
  function Run(s: Store, reqs: seq<WalletRequest>): (t: Trace)
    requires AllAdmissible(reqs)
    ensures |t.steps| == |reqs|
    ensures forall i :: 0 <= i < |reqs| ==> t.steps[i].request == reqs[i]
    ensures NonNegative(s) ==> NonNegative(t.final)
    decreases |reqs|
  {
    if |reqs| == 0 then Trace(s, [])
    else
      var prev := Run(s, reqs[..|reqs| - 1]);
      var req := reqs[|reqs| - 1];
      var r := ProcessTransaction(prev.final, req);
      Trace(if r.Success? then r.value.store else prev.final, prev.steps + [Step(req, r)])
  }

  /** Did the step commit a change to wallet `id`? */
  predicate CommittedOn(st: Step, id: Uuid)
  {
    st.result.Success? && st.request.walletId == Some(id) && st.request.amount.Some?
  }

  /** The amount a step added to wallet `id`. */
  function Credit(st: Step, id: Uuid): int
  {
    if CommittedOn(st, id) && IsDeposit(st.request) then st.request.amount.value else 0
  }

  /** The amount a step took from wallet `id`. */
  function Debit(st: Step, id: Uuid): int
  {
    if CommittedOn(st, id) && !IsDeposit(st.request) then st.request.amount.value else 0
  }

  /** Sum of the accepted deposit amounts on `id`. */
  function Deposited(steps: seq<Step>, id: Uuid): int
  {
    if |steps| == 0 then 0 else Deposited(steps[..|steps| - 1], id) + Credit(steps[|steps| - 1], id)
  }

  /** Sum of the accepted withdrawal amounts on `id`. */
  function Withdrawn(steps: seq<Step>, id: Uuid): int
  {
    if |steps| == 0 then 0 else Withdrawn(steps[..|steps| - 1], id) + Debit(steps[|steps| - 1], id)
  }

  /** Whether some step committed a change to `id`. */
  predicate Touched(steps: seq<Step>, id: Uuid)
  {
    exists i :: 0 <= i < |steps| && CommittedOn(steps[i], id)
  }

  /** One call moves wallet `id` by exactly its credit minus its debit, and
      only a committed call on `id` can bring `id` into existence. */
  lemma StepEffect(s: Store, req: WalletRequest, id: Uuid)
    requires Admissible(req)
    ensures var r := ProcessTransaction(s, req);
            var s' := if r.Success? then r.value.store else s;
            && BalanceOf(s', id) == BalanceOf(s, id) + Credit(Step(req, r), id) - Debit(Step(req, r), id)
            && (id in s' <==> id in s || CommittedOn(Step(req, r), id))
  {
    var r := ProcessTransaction(s, req);
    if r.Success? && req.walletId.value != id {
      var rid := req.walletId.value;
      var s' := r.value.store;
      assert id in s' - {rid} <==> id in s';
      assert id in s - {rid} <==> id in s;
      if id in s {
        assert (s' - {rid})[id] == s'[id];
        assert (s - {rid})[id] == s[id];
      }
    }
  }

  /** A step appended to a trace touches `id` exactly when the earlier steps
      did or the new step committed on it. */
  lemma TouchedSnoc(steps: seq<Step>, last: Step, id: Uuid)
    ensures Touched(steps + [last], id) <==> Touched(steps, id) || CommittedOn(last, id)
  {
    var all := steps + [last];
    if Touched(all, id) && !CommittedOn(last, id) {
      var i :| 0 <= i < |all| && CommittedOn(all[i], id);
      assert i < |steps| && steps[i] == all[i];
    }
    if Touched(steps, id) {
      var i :| 0 <= i < |steps| && CommittedOn(steps[i], id);
      assert all[i] == steps[i];
    }
    if CommittedOn(last, id) {
      assert all[|all| - 1] == last;
    }
  }

  /** The balance after any run is the starting balance plus the accepted
      deposits minus the accepted withdrawals on that wallet; a wallet exists
      at the end exactly when it existed at the start or a call committed on it. */
  lemma {:induction false} BalanceIsNetOfAccepted(s: Store, reqs: seq<WalletRequest>, id: Uuid)
    requires AllAdmissible(reqs)
    ensures var t := Run(s, reqs);
            BalanceOf(t.final, id) == BalanceOf(s, id) + Deposited(t.steps, id) - Withdrawn(t.steps, id)
    ensures var t := Run(s, reqs);
            id in t.final <==> id in s || Touched(t.steps, id)
    decreases |reqs|
  {
    if |reqs| > 0 {
      var front := reqs[..|reqs| - 1];
      var req := reqs[|reqs| - 1];
      assert reqs == front + [req];
      var prev := Run(s, front);
      BalanceIsNetOfAccepted(s, front, id);
      StepEffect(prev.final, req, id);
      var last := Step(req, ProcessTransaction(prev.final, req));
      RunSnoc(s, front, req);
      SumsSnoc(prev.steps, last, id);
      TouchedSnoc(prev.steps, last, id);
    }
  }

  /** Starting from non-negative balances, every balance stays non-negative. */
  lemma BalanceNeverNegative(s: Store, reqs: seq<WalletRequest>, id: Uuid)
    requires AllAdmissible(reqs)
    requires NonNegative(s)
    ensures BalanceOf(Run(s, reqs).final, id) >= 0
  {
  }

  /** `n` copies of a request. */
  function Repeat(req: WalletRequest, n: nat): (reqs: seq<WalletRequest>)
    ensures |reqs| == n
    ensures forall i :: 0 <= i < n ==> reqs[i] == req
  {
    seq(n, _ => req)
  }

  /** `n` deposits of `a` into a wallet with a non-negative store all commit,
      so together they raise its balance by exactly `n * a`; a missing wallet
      ends with balance `n * a`. */
  lemma {:induction false} RepeatedDeposits(s: Store, id: Uuid, a: int, n: nat)
    requires NonNegative(s)
    requires a > 0
    ensures var t := Run(s, Repeat(WalletRequest(Some(id), Some(Deposit), Some(a)), n));
            && Deposited(t.steps, id) == n * a
            && Withdrawn(t.steps, id) == 0
            && BalanceOf(t.final, id) == BalanceOf(s, id) + n * a
    decreases n
  {
    var req := WalletRequest(Some(id), Some(Deposit), Some(a));
    var reqs := Repeat(req, n);
    var t := Run(s, reqs);
    if n > 0 {
      assert reqs == Repeat(req, n - 1) + [req];
      RepeatedDeposits(s, id, a, n - 1);
      var prev := Run(s, Repeat(req, n - 1));
      var last := Step(req, ProcessTransaction(prev.final, req));
      DepositCommits(prev.final, id, a);
      RunSnoc(s, Repeat(req, n - 1), req);
      SumsSnoc(prev.steps, last, id);
      MulSucc(n - 1, a);
    }
    BalanceIsNetOfAccepted(s, reqs, id);
  }

  /** Running one more request appends one step to the run. */
  lemma RunSnoc(s: Store, reqs: seq<WalletRequest>, req: WalletRequest)
    requires AllAdmissible(reqs) && Admissible(req)
    ensures var prev := Run(s, reqs);
            Run(s, reqs + [req]).steps == prev.steps + [Step(req, ProcessTransaction(prev.final, req))]
  {
    assert (reqs + [req])[..|reqs|] == reqs;
  }

  lemma SumsSnoc(steps: seq<Step>, last: Step, id: Uuid)
    ensures Deposited(steps + [last], id) == Deposited(steps, id) + Credit(last, id)
    ensures Withdrawn(steps + [last], id) == Withdrawn(steps, id) + Debit(last, id)
  {
    assert (steps + [last])[..|steps|] == steps;
  }

  /** A positive deposit into a non-negative store always commits. */
  lemma DepositCommits(s: Store, id: Uuid, a: int)
    requires NonNegative(s)
    requires a > 0
    ensures var req := WalletRequest(Some(id), Some(Deposit), Some(a));
            var st := Step(req, ProcessTransaction(s, req));
            st.result.Success? && Credit(st, id) == a && Debit(st, id) == 0
  {
  }

  lemma MulSucc(m: nat, a: int)
    ensures m * a + a == (m + 1) * a
  {
  }

  /** Depositing and then withdrawing the same amount on an existing wallet
      gives back exactly the store it started from; versions are frozen
      in the model, so in the program this means balances and ids. */
  lemma DepositThenWithdraw(s: Store, id: Uuid, a: int)
    requires id in s && s[id].balance >= 0
    requires a > 0
    ensures var s1 := StoreAfter(s, WalletRequest(Some(id), Some(Deposit), Some(a)));
            StoreAfter(s1, WalletRequest(Some(id), Some(Withdraw), Some(a))) == s
  {
    var dep := WalletRequest(Some(id), Some(Deposit), Some(a));
    var wd := WalletRequest(Some(id), Some(Withdraw), Some(a));
    var s1 := StoreAfter(s, dep);
    var s2 := StoreAfter(s1, wd);
    assert ProcessTransaction(s, dep).Success?;
    assert ProcessTransaction(s1, wd).Success?;
    assert s2[id] == s[id];
    forall k | k in s && k != id
      ensures s2[k] == s[k]
    {
      assert (s1 - {id})[k] == s1[k];
      assert (s2 - {id})[k] == s2[k];
      assert (s - {id})[k] == s[k];
    }
    assert s2.Keys == s.Keys;
  }

  /** Two deposits on an unknown id create one wallet: the first call adds
      the id with two saves, the second only updates it with one save. */
  lemma CreationHappensOnce(s: Store, id: Uuid, a: int, b: int)
    requires NonNegative(s)
    requires id !in s
    requires a > 0 && b > 0
    ensures var first := ProcessTransaction(s, WalletRequest(Some(id), Some(Deposit), Some(a)));
            && first.Success?
            && |first.value.saves| == 2
            && first.value.store.Keys == s.Keys + {id}
            && |first.value.store| == |s| + 1
            && var second := ProcessTransaction(first.value.store, WalletRequest(Some(id), Some(Deposit), Some(b)));
               && second.Success?
               && |second.value.saves| == 1
               && second.value.store.Keys == first.value.store.Keys
               && second.value.response.balance == a + b
  {
    var first := ProcessTransaction(s, WalletRequest(Some(id), Some(Deposit), Some(a)));
    assert first.value.store.Keys == s.Keys + {id};
    assert |s.Keys + {id}| == |s.Keys| + 1;
  }

  /** A committed call is immediately visible to a balance query, which
      answers with the same body the call returned. */
  lemma QueryAfterCommit(s: Store, req: WalletRequest)
    requires Admissible(req)
    requires ProcessTransaction(s, req).Success?
    ensures GetBalance(ProcessTransaction(s, req).value.store, req.walletId.value)
            == Success(ProcessTransaction(s, req).value.response)
  {
  }
}
