/**
 The command store as the server keeps it: an object with two dictionaries that its
 methods update in place, plus the insertion order of the client dictionary's keys.
 Each mutating method is proved to have exactly the effect of the matching function
 of StoreSpec and to keep the cross-view invariant.
 */
module CommandStoreModel {
  import opened StoreSpec

  class CommandStore<R> {
    /** Registered client ids, in the order they were first seen. */
    var clientOrder: seq<ClientId>
    /** Per client, its command entries in issuance order. */
    var clientCommands: map<ClientId, seq<Entry<R>>>
    /** Per command id, its record. */
    var commandDetails: map<CommandId, Record<R>>

    ghost function State(): Store<R>
      reads this
    {
      Store(clientOrder, clientCommands, commandDetails)
    }

    ghost predicate Valid()
      reads this
    {
      Consistent(State())
    }

    constructor ()
      ensures Valid() && State() == Empty()
    {
      clientOrder := [];
      clientCommands := map[];
      commandDetails := map[];
      EmptyConsistent<R>();
    }

    method RegisterClient(c: ClientId)
      requires Valid()
      modifies this
      ensures Valid()
      ensures State() == Register(old(State()), c)
    {
      if c !in clientCommands {
        clientOrder := clientOrder + [c];
        clientCommands := clientCommands[c := []];
      }
      RegisterPreservesConsistency(old(State()), c);
    }

    /** Adds `command` for client `c`. `id` stands for the freshly generated uuid. */
    method AddCommand(c: ClientId, command: string, id: CommandId) returns (cmdId: CommandId)
      requires Valid()
      requires id !in commandDetails
      modifies this
      ensures Valid()
      ensures cmdId == id
      ensures State() == Issue(old(State()), c, id, command)
    {
      cmdId := id;
      var entry := Entry(cmdId, command, Pending, None);
      if c !in clientCommands {
        RegisterClient(c);
      }
      clientCommands := clientCommands[c := clientCommands[c] + [entry]];
      commandDetails := commandDetails[cmdId := Record(c, command, Pending, None)];
      IssuePreservesConsistency(old(State()), c, id, command);
    }

    /** Hands out the client's pending entries and marks each one sent in both views. */
    method GetPendingCommands(c: ClientId) returns (pending: seq<Entry<R>>)
      requires Valid()
      modifies this
      ensures Valid()
      ensures State() == Drain(old(State()), c).0
      ensures pending == Drain(old(State()), c).1
    {
      if c !in clientCommands {
        return [];
      }
      ghost var s0 := State();
      QueueIdsInLedger(s0, c);
      pending := MarkPendingSent(c);
      DrainPreservesConsistency(s0, c);
    }

    /** The loop of GetPendingCommands: walks the client's queue and, for each pending
        entry, marks it sent in the queue and in the ledger and hands it out. */
    method MarkPendingSent(c: ClientId) returns (pending: seq<Entry<R>>)
      requires c in clientCommands
      requires forall k :: 0 <= k < |clientCommands[c]| ==> clientCommands[c][k].id in commandDetails
      modifies this
      ensures clientOrder == old(clientOrder)
      ensures clientCommands == old(clientCommands)[c := MarkSent(old(clientCommands)[c])]
      ensures commandDetails == LedgerMarkSent(old(commandDetails), old(clientCommands)[c])
      ensures pending == Handed(old(clientCommands)[c])
    {
      ghost var s0 := State();
      var q := clientCommands[c];
      pending := [];
      var i := 0;
      assert MarkSent(q[..0]) + q[0..] == q;
      while i < |q|
        invariant 0 <= i <= |q|
        invariant clientOrder == s0.order
        invariant clientCommands == s0.queues[c := MarkSent(q[..i]) + q[i..]]
        invariant commandDetails == LedgerMarkSent(s0.ledger, q[..i])
        invariant pending == Handed(q[..i])
      {
        MarkSentSnoc(q, i);
        LedgerMarkSentSnoc(s0.ledger, q, i);
        HandedSnoc(q, i);
        if q[i].status == Pending {
          var cur := clientCommands[c];
          clientCommands := clientCommands[c := cur[i := cur[i].(status := Sent)]];
          commandDetails := commandDetails[q[i].id := commandDetails[q[i].id].(status := Sent)];
          pending := pending + [cur[i].(status := Sent)];
        }
        assert commandDetails == LedgerMarkSent(s0.ledger, q[..i + 1]);
        i := i + 1;
      }
      assert q[..i] == q && q[i..] == [];
      assert MarkSent(q[..i]) + q[i..] == MarkSent(q);
    }

    /** Stores `result` for command `id`; false if the id is unknown. */
    method UpdateCommandResult(id: CommandId, result: R) returns (ok: bool)
      requires Valid()
      modifies this
      ensures Valid()
      ensures State() == Submit(old(State()), id, result).0
      ensures ok == Submit(old(State()), id, result).1
    {
      if id !in commandDetails {
        return false;
      }
      ghost var s0 := State();
      commandDetails := commandDetails[id := commandDetails[id].(status := Completed, result := Some(result))];
      var owner := commandDetails[id].clientId;
      var q := clientCommands[owner];
      var i := 0;
      ghost var found := false;
      while i < |q|
        invariant 0 <= i <= |q|
        invariant !found
        invariant forall k :: 0 <= k < i ==> q[k].id != id
        invariant clientCommands == s0.queues
      {
        if q[i].id == id {
          clientCommands := clientCommands[owner := q[i := q[i].(status := Completed, result := Some(result))]];
          found := true;
          break;
        }
        i := i + 1;
      }
      if found {
        CompleteFirstAt(q, id, result, i);
      } else {
        CompleteFirstAbsent(q, id, result);
      }
      SubmitPreservesConsistency(s0, id, result);
      ok := true;
    }

    /** The registered client ids, in registration order. */
    method ListClients() returns (clients: seq<ClientId>)
      requires Valid()
      ensures forall c :: c in clients <==> c in clientCommands
      ensures forall i, j :: 0 <= i < j < |clients| ==> clients[i] != clients[j]
      ensures clients == clientOrder
    {
      clients := clientOrder;
    }

    /** The client's entries in issuance order, whatever their status; empty for an
        unknown client. */
    method GetClientCommands(c: ClientId) returns (history: seq<Entry<R>>)
      requires Valid()
      ensures c !in clientCommands ==> history == []
      ensures c in clientCommands ==> history == clientCommands[c]
      ensures forall i :: 0 <= i < |history| ==> Mirrors(history[i], c, commandDetails)
    {
      if c !in clientCommands {
        return [];
      }
      history := clientCommands[c];
    }

    /** The command's record, or None for an unknown id. */
    method GetCommandDetails(id: CommandId) returns (details: Option<Record<R>>)
      requires Valid()
      ensures details.None? <==> id !in commandDetails
      ensures details.Some? ==> details.value == commandDetails[id]
      ensures details.Some? ==>
                details.value.clientId in clientCommands && id in Ids(clientCommands[details.value.clientId])
    {
      if id !in commandDetails {
        return None;
      }
      details := Some(commandDetails[id]);
    }
  }
}
