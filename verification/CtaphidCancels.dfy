/** What a CANCEL comes to over whole runs. */
module CtaphidCancels {
  import opened Bytes
  import opened Wire
  import opened CtaphidProtocol
  import opened CtaphidRuns
  import opened CtaphidAnswers
  import T = CtaphidTimeouts

  /** The state after the first `n` operations. */
  function At(s: State, ops: seq<Op>, n: nat): (r: State)
    requires Inv(s) && n <= |ops|
    ensures Inv(r)
  {
    Run(s, ops[..n]).0
  }

  lemma AtNext(s: State, ops: seq<Op>, n: nat)
    requires Inv(s) && n < |ops|
    ensures At(s, ops, n + 1) == Step(At(s, ops, n), ops[n]).0
  {
    hide Step;
    assert ops[..n + 1] == ops[..n] + [ops[n]] && [ops[n]][1..] == [];
    T.RunOfBoth(s, ops[..n], [ops[n]]);
    T.RunOfFirst(At(s, ops, n), [ops[n]]);
    T.RunOfNone(Step(At(s, ops, n), ops[n]).0);
  }

  /** The CBOR request whose token this is, is being processed. */
  predicate Pending(s: State, cid: u32, token: u32) {
    Holds(s, cid, token) && s.phase.command == CBOR
  }

  predicate IsCancel(op: Op, cid: u32) {
    op.Packet? && Cid(op.report) == cid && op.report[4] == 0x91 && DeclaredLen(op.report) == 0
  }

  /** One operation's effect on a cancellation. */
  lemma CancelStep(s: State, op: Op, cid: u32, token: u32)
    requires Inv(s) && Pending(Step(s, op).0, cid, token)
    ensures IsCancelled(Step(s, op).0, cid, token) <==>
              Pending(s, cid, token) && (IsCancel(op, cid) || (IsCancelled(s, cid, token) && op != Uncancel(cid, token)))
  {
    if op.Packet? {
      var live := Expire(s, op.at);
      CancelTakesEffect(s, op.report, op.at, op.draws);
      if live.phase.Idle? {
        TransactionBegins(s, op.report, op.at, op.draws);
      } else {
        TransactionGoesOn(s, op.report, op.at, op.draws);
      }
      if s.phase.Processing? {
        PendingBefore(s, op, cid, token);
      }
      hide Feed, EndsTransaction, Acceptable, IsNextFragment, Grown;
    }
  }

  /** A report leaves a request pending only with its own token. */
  lemma PendingBefore(s: State, op: Op, cid: u32, token: u32)
    requires Inv(s) && op.Packet? && s.phase.Processing? && Pending(Step(s, op).0, cid, token)
    ensures Pending(s, cid, token)
  {
    FeedOutcome(s, op.report, op.at, op.draws);
    hide Feed;
  }

  /** The request was pending at every moment from `i` to `n`. */
  ghost predicate PendingSince(s: State, ops: seq<Op>, i: nat, n: nat, cid: u32, token: u32)
    requires Inv(s) && n <= |ops|
  {
    forall j: nat :: i <= j <= n ==> Pending(At(s, ops, j), cid, token)
  }

  /** A cancel came while the request was pending, and nobody has cleared it since. */
  ghost predicate CancelStands(s: State, ops: seq<Op>, i: nat, n: nat, cid: u32, token: u32)
    requires Inv(s) && n <= |ops|
  {
    && i < n && IsCancel(ops[i], cid) && PendingSince(s, ops, i, n, cid, token)
    && forall j: nat :: i < j < n ==> ops[j] != Uncancel(cid, token)
  }

  /**
    Over any run: the token of the request being processed reads as cancelled if and only if an empty CANCEL came
    on its channel since the request began, and no clearing under that token came after it.
  */
  lemma {:induction false} CancelledExactlyWhen(s: State, ops: seq<Op>, n: nat, cid: u32, token: u32)
    requires Inv(s) && !Pending(s, cid, token) && n <= |ops| && Pending(At(s, ops, n), cid, token)
    ensures IsCancelled(At(s, ops, n), cid, token) <==> exists i: nat :: CancelStands(s, ops, i, n, cid, token)
  {
    hide Step, Run, IsCancel, Pending, Inv;
    if n == 0 {
      assert ops[..0] == [];
      T.RunOfNone(s);
    } else {
      var m := n - 1;
      AtNext(s, ops, m);
      CancelStep(At(s, ops, m), ops[m], cid, token);
      if Pending(At(s, ops, m), cid, token) {
        CancelledExactlyWhen(s, ops, m, cid, token);
        if IsCancelled(At(s, ops, n), cid, token) {
          if IsCancel(ops[m], cid) {
            assert CancelStands(s, ops, m, n, cid, token);
          } else {
            var i: nat :| CancelStands(s, ops, i, m, cid, token);
            assert CancelStands(s, ops, i, n, cid, token);
          }
        }
        forall i: nat | CancelStands(s, ops, i, n, cid, token)
          ensures IsCancelled(At(s, ops, n), cid, token)
        {
          if i < m {
            assert CancelStands(s, ops, i, m, cid, token);
          }
        }
      } else {
        forall i: nat | CancelStands(s, ops, i, n, cid, token)
          ensures false
        {
        }
      }
    }
  }
}
