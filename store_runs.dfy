/**
 Runs of store operations. Over any run whose new command ids are fresh (the role
 `uuid4` plays in the server), no command id is handed out by more than one poll,
 and no command's owner or text ever changes, and no status moves back to pending.
 */
module StoreRuns {
  import opened StoreSpec

  /** The mutating operations of the store (the read-only ones change nothing). */
  datatype Op<R> =
    | RegisterOp(client: ClientId)
    | IssueOp(client: ClientId, id: CommandId, text: string)
    | PollOp(client: ClientId)
    | SubmitOp(id: CommandId, result: R)

  /** One operation: the new store and the ids it hands out (only a poll hands any out). */
  function Step<R>(s: Store<R>, op: Op<R>): (Store<R>, seq<CommandId>)
    requires Consistent(s)
  {
    match op
    case RegisterOp(c) => (Register(s, c), [])
    case IssueOp(c, id, text) => (Issue(s, c, id, text), [])
    case PollOp(c) => (Drain(s, c).0, Ids(Drain(s, c).1))
    case SubmitOp(id, r) => (Submit(s, id, r).0, [])
  }

  /** Every id that the run issues is new to `s` and different from every other id it issues. */
  ghost predicate FreshIds<R>(s: Store<R>, ops: seq<Op<R>>) {
    && (forall i :: 0 <= i < |ops| && ops[i].IssueOp? ==> ops[i].id !in s.ledger)
    && (forall i, j :: 0 <= i < j < |ops| && ops[i].IssueOp? && ops[j].IssueOp? ==> ops[i].id != ops[j].id)
  }

  /** What one operation does to the ledger's history: records are only added (by
      add_command, under its new id), owner and text never change, and a status that
      is no longer pending never becomes pending again, nor does a completed one leave
      completed. */
  lemma StepKeepsHistory<R>(s: Store<R>, op: Op<R>)
    requires Consistent(s)
    requires op.IssueOp? ==> op.id !in s.ledger
    ensures Step(s, op).0.ledger.Keys == s.ledger.Keys + (if op.IssueOp? then {op.id} else {})
    ensures forall id :: id in s.ledger ==>
              && Step(s, op).0.ledger[id].clientId == s.ledger[id].clientId
              && Step(s, op).0.ledger[id].command == s.ledger[id].command
              && (s.ledger[id].status != Pending ==> Step(s, op).0.ledger[id].status != Pending)
              && (s.ledger[id].status == Completed ==> Step(s, op).0.ledger[id].status == Completed)
  {
    match op
    case RegisterOp(c) =>
    case IssueOp(c, id, text) =>
    case PollOp(c) => DrainLedgerEffect(s, c);
    case SubmitOp(id, r) =>
  }

  lemma StepInvariant<R>(s: Store<R>, ops: seq<Op<R>>)
    requires Consistent(s) && FreshIds(s, ops) && ops != []
    ensures Consistent(Step(s, ops[0]).0)
    ensures FreshIds(Step(s, ops[0]).0, ops[1..])
  {
    match ops[0] {
      case RegisterOp(c) => RegisterPreservesConsistency(s, c);
      case IssueOp(c, id, text) => IssuePreservesConsistency(s, c, id, text);
      case PollOp(c) => DrainPreservesConsistency(s, c);
      case SubmitOp(id, r) => SubmitPreservesConsistency(s, id, r);
    }
    StepKeepsHistory(s, ops[0]);
    var rest := ops[1..];
    forall i | 0 <= i < |rest| && rest[i].IssueOp? ensures rest[i].id !in Step(s, ops[0]).0.ledger {
      assert rest[i] == ops[i + 1];
    }
    forall i, j | 0 <= i < j < |rest| && rest[i].IssueOp? && rest[j].IssueOp? ensures rest[i].id != rest[j].id {
      assert rest[i] == ops[i + 1] && rest[j] == ops[j + 1];
    }
  }

  /** The ids handed out, in order, by running `ops` from `s`. */
  ghost function Run<R>(s: Store<R>, ops: seq<Op<R>>): seq<CommandId>
    requires Consistent(s) && FreshIds(s, ops)
    decreases |ops|
  {
    if ops == [] then []
    else
      StepInvariant(s, ops);
      Step(s, ops[0]).1 + Run(Step(s, ops[0]).0, ops[1..])
  }

  /** A poll hands out distinct ids, each of a record that was pending and is now sent. */
  lemma PollHandsPending<R>(s: Store<R>, c: ClientId)
    requires Consistent(s)
    ensures Distinct(Step(s, PollOp(c)).1)
    ensures forall id :: id in Step(s, PollOp(c)).1 ==>
              && id in s.ledger && s.ledger[id].status == Pending
              && id in Step(s, PollOp(c)).0.ledger && Step(s, PollOp(c)).0.ledger[id].status == Sent
  {
    if c in s.queues {
      var q := s.queues[c];
      var h := Step(s, PollOp(c)).1;
      var ps := PendingPositions(q);
      HandedAt(q);
      DrainLedgerEffect(s, c);
      assert |h| == |ps|;
      forall k | 0 <= k < |h| ensures h[k] == q[ps[k]].id && Mirrors(q[ps[k]], c, s.ledger) {
      }
      forall k, l | 0 <= k < l < |h| ensures h[k] != h[l] {
        assert Ids(q)[ps[k]] != Ids(q)[ps[l]];
      }
    }
  }

  /** What any one operation hands out: distinct ids of records that were pending
      before it and are not pending after it. */
  lemma StepHandsPending<R>(s: Store<R>, op: Op<R>)
    requires Consistent(s)
    ensures Distinct(Step(s, op).1)
    ensures forall id :: id in Step(s, op).1 ==>
              && id in s.ledger && s.ledger[id].status == Pending
              && id in Step(s, op).0.ledger && Step(s, op).0.ledger[id].status != Pending
  {
    if op.PollOp? {
      PollHandsPending(s, op.client);
    }
  }

  lemma DistinctConcat<T>(a: seq<T>, b: seq<T>)
    requires Distinct(a) && Distinct(b)
    requires forall x :: x in a ==> x !in b
    ensures Distinct(a + b)
  {
    forall i, j | 0 <= i < j < |a + b| ensures (a + b)[i] != (a + b)[j] {
      if i < |a| && j >= |a| {
        assert (a + b)[i] == a[i] && a[i] in a;
        assert (a + b)[j] == b[j - |a|] && b[j - |a|] in b;
      } else if i >= |a| {
        assert (a + b)[i] == b[i - |a|] && (a + b)[j] == b[j - |a|];
      }
    }
  }

  /** A command is handed out at most once over any run: the ids handed out are
      distinct, and each was pending at the start (or was issued during the run). */
  lemma {:induction false} HandedAtMostOnce<R>(s: Store<R>, ops: seq<Op<R>>)
    requires Consistent(s) && FreshIds(s, ops)
    ensures Distinct(Run(s, ops))
    ensures forall id :: id in Run(s, ops) ==> id !in s.ledger || s.ledger[id].status == Pending
    decreases |ops|
  {
    if ops != [] {
      StepInvariant(s, ops);
      var t, h := Step(s, ops[0]).0, Step(s, ops[0]).1;
      var rest := Run(t, ops[1..]);
      HandedAtMostOnce(t, ops[1..]);
      assert Run(s, ops) == h + rest;
      StepHandsPending(s, ops[0]);
      StepKeepsHistory(s, ops[0]);
      DistinctConcat(h, rest);
    }
  }
}
