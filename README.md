# Command store of the dispatch server, modelled in Dafny

The server coordinates remote agents. Agents register, poll for commands queued for
them, and submit results. Operators issue commands and read history and status. All of
that state lives in one in-memory object, `CommandStore`, in `c2-server.py`. This
project models that object and proves what it promises.

The store keeps two views of every command:

- `client_commands`: per client, the ordered list of its command entries (id, text,
  status, result);
- `command_details`: per command id, a separate record (owning client, text, status,
  result).

The two views are separate copies, so every mutator updates both by hand. A command
moves from `pending` to `sent` when a poll hands it out, and to `completed` when a result
arrives.

Files:

- `store_spec.dfy`, module `StoreSpec`. The data model: `Status`, `Entry`, `Record`,
  and `Store`, the whole state as a value. Also `Consistent`, the cross-view invariant,
  made of four parts: `OrderMatches`, `QueuesMirrored`, `QueueIdsDistinct` and
  `LedgerQueued`. One function per mutator gives its effect on the whole store:
  `Register`, `Issue`, `Drain` and `Submit`. The lemmas prove what the store promises
  about them, including that each mutator keeps the invariant.
- `store_runs.dfy`, module `StoreRuns`. Runs of operations (`Op`, `Step`, `Run`). Its
  main theorem: over any run whose new ids are fresh, no command is handed out twice.
  It also proves that no status goes back to pending and that no owner or command text
  ever changes.
- `command_store.dfy`, module `CommandStoreModel`. The class `CommandStore<R>` with the
  two dictionaries of `c2-server.py` as map fields, plus `clientOrder` (see below). Its
  methods update the fields as `c2-server.py` does, in the same order and with the same
  loops, except that the comprehension and the marking loop of `get_pending_commands`
  are merged into one loop (see below). Each
  mutator is proved to produce exactly the `StoreSpec` function's new state and to keep
  `Valid()`.

Modelling choices:

- The result payload is the opaque type parameter `R`. A stored result is
  `Some(result)`; a missing one is `None`.
- Client and command ids are strings.
- Python dicts list their keys in insertion order, and `list_clients` returns them in
  that order. The field `clientOrder` records that order, and `Valid()` ties it to the
  keys of `clientCommands`.
- `uuid.uuid4()` becomes the `id` argument of `AddCommand`, with the requirement that it
  is not yet in `commandDetails`.
- `get_pending_commands` builds the pending list with a comprehension, then marks each
  entry sent in both views. Because the list holds the queue's own dict objects, the
  model does both in one loop over the queue (`MarkPendingSent`): each pending entry is
  marked sent in the queue and in the ledger, and its sent copy is handed out. The loop is
  in its own method so that its proof does not carry the whole store invariant.
- `update_command_result` searches the owner's queue and stops at the first matching id
  (`break`). `CompleteFirst` models that; under the invariant it rewrites exactly the one
  entry holding the id (`CompleteFirstAt`).

Behaviour of the server worth noting, all of it modelled:

- `list_clients` keeps registration order (c2-server.py:95).
- The history read returns the queue entries, not ledger records (c2-server.py:100).
- Polling an unknown client does not register it (c2-server.py:60-61).
- A result is accepted for a command that is still `pending` (never handed out). It
  moves that command straight to `completed` (c2-server.py:75-81).

## Model

| member | source | states |
|---|---|---|
| `StoreSpec.EmptyConsistent` | c2-server.py:18-23 | A new store, with no clients and no commands, satisfies the cross-view invariant. |
| `StoreSpec.Register` | c2-server.py:25-28 | After registering, the client is known. An unseen client gets an empty queue, added to the end of the registration order. For a known client nothing changes. All other queues and the ledger stay the same. |
| `StoreSpec.RegisterIdempotent` | c2-server.py:25-28 | Registering the same client twice gives the same store as registering it once. |
| `StoreSpec.RegisterPreservesConsistency` | c2-server.py:25-28 | Registering keeps the cross-view invariant. |
| `StoreSpec.Issue` | c2-server.py:30-57 | Adding a command registers an unknown client. It appends one entry, `pending` with no result and the given text, to the end of that client's queue. It stores an equal record under the new id. All other queues and records stay the same. |
| `StoreSpec.IssueKeepsMirrored` | c2-server.py:35-54 | After adding a command under a fresh id, every queue entry still agrees with its ledger record, and the new entry agrees with the new record. |
| `StoreSpec.IssueKeepsIdsDistinct` | c2-server.py:47 | Appending an entry under a fresh id keeps each queue free of repeated ids. |
| `StoreSpec.IssueKeepsLedgerQueued` | c2-server.py:47-54 | After adding a command, every ledger record, including the new one, is in its owner's queue. |
| `StoreSpec.IssuePreservesConsistency` | c2-server.py:30-57 | Adding a command under a fresh id keeps the cross-view invariant. |
| `StoreSpec.MarkSent` | c2-server.py:64-68 | In the queue after a poll, every pending entry becomes sent and every other entry is left unchanged. |
| `StoreSpec.PendingPositions` | c2-server.py:64 | Lists the positions of exactly the pending entries, in increasing order. |
| `StoreSpec.HandedAt` | c2-server.py:59-72 | A poll hands out exactly the entries that were pending, in queue order, each shown as `sent`. |
| `StoreSpec.QueueIdsInLedger` | c2-server.py:69 | Under the invariant, every id in a client's queue has a ledger record, so the ledger lookup in the marking loop cannot fail. |
| `StoreSpec.LedgerMarkSentSnoc` | c2-server.py:67-69 | One iteration of the marking loop on the ledger marks that entry's record sent, which extends the marked prefix by one. |
| `StoreSpec.MarkSentSnoc` | c2-server.py:67-68 | One iteration of the marking loop on the queue marks that entry sent, which extends the marked prefix by one. |
| `StoreSpec.HandedSnoc` | c2-server.py:64 | One iteration adds that entry, shown as sent, to what the poll hands out, if the entry was pending. |
| `StoreSpec.HandedOfMarkSent` | c2-server.py:64-68 | Once the queue has been marked, none of its entries is pending. |
| `StoreSpec.DrainTwiceHandsNothing` | c2-server.py:59-72 | A second poll of the same client, with no command added in between, hands out nothing. |
| `StoreSpec.PendingIdsOwned` | c2-server.py:64-69 | Under the invariant, the pending ids in a client's queue are exactly the ledger's pending commands owned by that client. |
| `StoreSpec.DrainLedgerEffect` | c2-server.py:59-69 | A poll of a known client turns exactly that client's pending records into sent ones and leaves every other record unchanged. A poll of an unknown client changes nothing. |
| `StoreSpec.DrainKeepsMirrored` | c2-server.py:67-69 | After a poll, every queue entry still agrees with its ledger record, because both views were marked. |
| `StoreSpec.DrainPreservesConsistency` | c2-server.py:59-72 | A poll keeps the cross-view invariant. |
| `StoreSpec.CompleteFirstAt` | c2-server.py:85-89 | If `p` is the first position holding the id, the search-and-break loop rewrites exactly position `p` to `completed` with the new result. |
| `StoreSpec.CompleteFirstAbsent` | c2-server.py:85-89 | If no entry holds the id, the loop leaves the queue unchanged. |
| `StoreSpec.CompleteFirstTwice` | c2-server.py:85-89 | Completing the same id twice leaves the queue as the second completion alone would. |
| `StoreSpec.IdsCompleteFirst` | c2-server.py:85-89 | Completing an entry changes no id in the queue. |
| `StoreSpec.PositionOf` | c2-server.py:84-86 | Under the invariant, a known command sits at exactly one position of its owner's queue. |
| `StoreSpec.SubmitEffect` | c2-server.py:74-92 | An unknown id gives `false` and changes nothing, not even the ledger's size. A known id gives `true`; in both views the command becomes `completed` with the given result, whatever its status was. Owner and text stay the same, and nothing else changes. |
| `StoreSpec.SubmitKeepsMirrored` | c2-server.py:80-89 | After a result is stored, every queue entry still agrees with its ledger record. |
| `StoreSpec.SubmitPreservesConsistency` | c2-server.py:74-92 | Storing a result keeps the cross-view invariant. |
| `StoreSpec.SubmitLastWriteWins` | c2-server.py:80-88 | Two results submitted for the same command leave the store as the second alone would: the later result overwrites the earlier one. |
| `StoreRuns.StepKeepsHistory` | c2-server.py:17-105 | No operation removes a ledger record. Only adding a command adds one, under its new id. No operation changes a command's owner or text, or moves a status back to `pending`, and a `completed` command stays `completed`. |
| `StoreRuns.StepInvariant` | c2-server.py:17-105 | Each operation keeps the invariant, and later fresh ids stay fresh. |
| `StoreRuns.PollHandsPending` | c2-server.py:59-72 | A poll hands out distinct ids. Each belongs to a record that was pending before the poll and is sent after it. |
| `StoreRuns.StepHandsPending` | c2-server.py:59-72 | For any one operation, every id it hands out was pending before it and is not pending after it. |
| `StoreRuns.HandedAtMostOnce` | c2-server.py:59-72 | Over any run whose new ids are fresh, no two polls hand out the same command. Every command handed out was pending at the start of the run, or was issued during it. |
| `CommandStoreModel.CommandStore.constructor` | c2-server.py:18-23 | A new store is empty and valid. |
| `CommandStoreModel.CommandStore.RegisterClient` | c2-server.py:25-28 | Updates the fields to exactly `Register` of the old state and keeps `Valid()`. |
| `CommandStoreModel.CommandStore.AddCommand` | c2-server.py:30-57 | For a fresh id, returns that id, updates the fields to exactly `Issue` of the old state, and keeps `Valid()`. |
| `CommandStoreModel.CommandStore.GetPendingCommands` | c2-server.py:59-72 | Returns exactly what `Drain` hands out. The new state is `Drain` of the old state, and `Valid()` is kept. An unknown client gets `[]` and nothing changes. |
| `CommandStoreModel.CommandStore.MarkPendingSent` | c2-server.py:64-69 | The loop leaves the owner's queue equal to `MarkSent` of it and the ledger equal to `LedgerMarkSent`. It returns `Handed` of the queue and leaves everything else unchanged. |
| `CommandStoreModel.CommandStore.UpdateCommandResult` | c2-server.py:74-92 | Returns exactly `Submit`'s answer and updates the fields to `Submit`'s new state. The search loop with `break` is proved equal to the first-match update, and `Valid()` is kept. |
| `CommandStoreModel.CommandStore.ListClients` | c2-server.py:94-95 | Returns exactly the registered client ids, each once, in registration order. |
| `CommandStoreModel.CommandStore.GetClientCommands` | c2-server.py:97-100 | Returns `[]` for an unknown client. Otherwise it returns that client's entries in issuance order, whatever their status, and each agrees with its ledger record. |
| `CommandStoreModel.CommandStore.GetCommandDetails` | c2-server.py:102-105 | Returns `None` exactly when the id is unknown. Otherwise it returns the ledger record, and the command is in its owner's queue. |

## Left out

- The HTTP layer (c2-server.py:111-189) is not modelled: request handlers, JSON decoding, the route table, status codes and `web.run_app`. The handlers for polling, submitting, sending, history and status reject a missing or empty id, an empty command and a `None` result before the store is called (c2-server.py:121, 132, 146, 158, 166). The registration handler has no such check and can pass an empty client id, which the model admits as a `ClientId`.
- Timestamps (`datetime.now()`, c2-server.py:40 and 53) are dropped. The two calls can give different values, so they play no part in the invariant.
- Logging calls are dropped. They only write to the log.
- Concurrency is not modelled. The store has no lock, and its methods run to completion on one event loop, so each call is modelled as one atomic step.
- Aliasing is not modelled. `get_pending_commands` returns the queue's own entry dicts (c2-server.py:64, 72), and `get_client_commands` and `get_command_details` return the store's live list and dict, while the model returns values. The handlers serialise them at once.
- The agent program (`c2-client.py`) and the operator console (`c2-tester.py`) are not part of this model. Their shell execution, polling and sleeping, HTTP calls and console input are all I/O.
- The structure of the result payload (stdout, stderr, exit code) is not modelled. The store keeps it as an opaque value.
