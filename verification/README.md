# Formal model of the Faryo structured-session engine

Faryo drives Codex sessions from a browser. On each workstation an Owner process keeps the
state of the sessions: it indexes rollout files, delivers messages into terminals, applies
protocol notifications to session actors, journals what the browser is to see, and recovers
worker connections. A gateway merges the session lists of several workstations.

This project models that engine in Dafny and proves what it is for. Code that changes state
step by step is modelled as classes with methods and loops, each proved against a
specification; the specifications are then shown to have the properties the design promises.
Awaits and thread switches separate steps: a class invariant (`Valid`) is what every
interleaving of its methods keeps, and results about whole runs are stated over a ghost
log or history. What a terminal, a file system, a clock or the protocol peer answers is left
open: it is a parameter or an arbitrary value. Hashes, tokens and keyed digests are injective
constructors.

| file | part of the engine |
|---|---|
| Common.dfy, Numerals.dfy | order-preserving selection; printing and reading numbers |
| RolloutEvents.dfy, Rollout.dfy, RolloutMeaning.dfy, RolloutTurns.dfy, RolloutRewrites.dfy | the incremental index of a rollout file |
| Delivery.dfy, DeliveryStore.dfy, KeyedLocks.dfy | reliable delivery, its durable records and its locks |
| Journal.dfy | the bounded journal of browser events |
| Actor.dfy, WebSessionActor.dfy, ActorStreams.dfy, ActorSegments.dfy | the session actor, its streams and its message blocks |
| DeltaBatching.dfy, SendTasks.dfy | publication of deltas, and message submission |
| HistorySegments.dfy, HistoryMerge.dfy, HistoryPaging.dfy | the projected conversation history |
| Workbench.dfy | the merged session list of several workstations |
| Supervisor.dfy, RecoveryPacing.dfy | recovery of worker connections |
| Broker.dfy, Menus.dfy | questions of the agent and menus of the terminal |
| Registry.dfy, Timeline.dfy | session names and the command timeline |

## Where the code does less than its purpose

Each point names the exact condition, the counterexample, or both.

- A completed reasoning item, or one without a type, keeps whatever text was streamed into it
  (`Actor.ConvergesExactly`, `Actor.ReasoningKeepsStreamedText`).
- An agent message streamed as exactly the plan heading gets a line break before its next delta
  (`ActorStreams.HeadingGetsABreak`, `ActorStreams.MessageRepeatsStream`).
- An accepted text whose durable record could not be written may be pasted again after a restart
  (`Delivery.DeliveryService.PastedAgainExactly`, `Delivery.UnwrittenIsForgotten`).
- An item streamed first and then restarted as a user message shifts the segments of its turn
  (`ActorSegments.SegmentsAgree`, `ActorSegments.RetypedItemDisagrees`).
- `newerCursor` skips turns when the turns up to its position exceed the character budget
  (`HistoryPaging.NewerIsGapless`, `HistoryPaging.NewerCanSkip`).
- The history merge can lose an unsettled live block when two live blocks share an id
  (`HistoryMerge.SurvivesExactly`, `HistoryMerge.DuplicateIdsLose`). The blocks of an actor never do
  (`ActorSegments.ActorHistoryShows`); those of a thread snapshot read without an actor can
  (`ActorSegments.SnapshotCanRepeatIds`).
- Beyond the fetch cap of 1000 a merged page can be wrong (`Workbench.Payload`, `Workbench.BeyondTheCap`).
- The journal can answer a gap although no storable event was lost (`Journal.GapMeansLoss`, `Journal.SpuriousGap`).
- A rejected probe and an answered call of a replaced client still clear probe state
  (`Supervisor.SessionSupervisor.Handle`).
- A recovery can outlive the stop of its worker (`Supervisor.SessionSupervisor.StopWorker`,
  `Supervisor.RecoveryOutlivesStop`).
- Interactions advertise a cancel that permissions requests, and commands that offer no refusal, cannot
  carry out (`Broker.CancelHasARefusal`).
- A rollout file rewritten in place, with the same inode and at least the indexed length, is not noticed
  (`RolloutRewrites.RightExactlyIfIntact`, `RolloutRewrites.UnnoticedRewrite`).
- A command timeline still oversized after halving is written but not read back
  (`Timeline.OversizedIsLost`).

## Model

| member | source | states |
|---|---|---|
| Rollout.ActivityIndex.UpdateIndex | apps/owner/local-tmux-owner/appserver_rollout.py:143-228 | After any sequence of calls, evictions and file changes the answer for a file whose change can be noticed is one scan of its complete lines from scratch; after an unnoticed rewrite it is the scan of the old indexed prefix followed by the new bytes; a failed stat answers from the cache |
| Rollout.ActivityIndex.IndexFile | apps/owner/local-tmux-owner/appserver_rollout.py:148-228 | A new inode or a shorter file starts over and everything else resumes; both end in the same full scan, stored at the newest end of the cache |
| Rollout.ActivityIndex.ScanTail | apps/owner/local-tmux-owner/appserver_rollout.py:167-227 | Reading on from the stored offset indexes exactly the complete lines after it, in order, and stops before a partial line |
| Rollout.ActivityIndex.Lookup | apps/owner/local-tmux-owner/appserver_rollout.py:130-135 | A lookup finds the last stored state of a path and changes only the order of use |
| Rollout.ActivityIndex.Store | apps/owner/local-tmux-owner/appserver_rollout.py:122-127 | Storing moves a path to the newest end and evicts from the oldest end down to sixteen paths |
| Rollout.RefreshedMembers | apps/owner/local-tmux-owner/appserver_rollout.py:122-127 | Whatever is evicted, the cache keeps distinct paths, at most sixteen, and no state but those it held and the new one |
| Rollout.LinesResume | apps/owner/local-tmux-owner/appserver_rollout.py:167-181 | Scanning a newline-terminated prefix and resuming there reads the same lines as one scan of the whole file |
| Rollout.PartialLineHeldBack | apps/owner/local-tmux-owner/appserver_rollout.py:172-177 | A partial last line contributes nothing and is still unread afterwards |
| Rollout.LinesInOrder | apps/owner/local-tmux-owner/appserver_rollout.py:167-181 | Line ranges are disjoint and ascending |
| Rollout.LinesAreLines | apps/owner/local-tmux-owner/appserver_rollout.py:167-181 | Each range holds exactly one complete line and the event that line decodes to |
| Rollout.ResumeIsFullScan | apps/owner/local-tmux-owner/appserver_rollout.py:143-228 | Resuming the parser state at its offset equals a scan of the spliced file, for every parser state carried over |
| Rollout.FullScanIsScan | apps/owner/local-tmux-owner/appserver_rollout.py:178-181 | The stored offset is the end of the last complete line |
| RolloutEvents.TurnsAreTrimmed | apps/owner/local-tmux-owner/appserver_rollout.py:42-74 | The active turn and the turn of an activity are always stripped |
| RolloutEvents.ProjectionKeepsTurn | apps/owner/local-tmux-owner/appserver_rollout.py:322-349 | Deriving the turn of a filed record again, with its filed turn as context, gives the filed turn |
| RolloutMeaning.ScanAgrees | apps/owner/local-tmux-owner/appserver_rollout.py:178-227 | The dictionaries of the incremental scan say what a recursive reading of the list of lines says: question in force and its occurrence number, site of each call, records of each turn and item |
| RolloutMeaning.FiledReadsBack | apps/owner/local-tmux-owner/appserver_rollout.py:352-381 | Every byte range filed under a turn reads back one line that is either tool output or projects to that same turn |
| RolloutMeaning.IndexMeansFile | apps/owner/local-tmux-owner/appserver_rollout.py:143-228 | The index of a file is: under each turn and item, exactly the lines that belong there, in file order, none of which the turn guard drops when read back |
| RolloutTurns.ActiveExactly | apps/owner/local-tmux-owner/appserver_rollout.py:62-74 | A turn is the active one if and only if it was the last to start by name and has not ended since, by its name or without any |
| RolloutTurns.FiledExactly | apps/owner/local-tmux-owner/appserver_rollout.py:52-59 | A line is filed under a turn if and only if it belongs there: a call by the turn it names or else the active one, a patch or search likewise, tool output by the latest call with its id |
| RolloutTurns.FiledAreTheTurns | apps/owner/local-tmux-owner/appserver_rollout.py:218-219 | The records of a turn are those of exactly the lines that belong to it |
| RolloutTurns.FiledItemsAreTheItems | apps/owner/local-tmux-owner/appserver_rollout.py:218-219 | The ranges of an item are those of exactly the lines filed with it |
| RolloutTurns.ItemFiledExactly | apps/owner/local-tmux-owner/appserver_rollout.py:202-217 | A call is filed with its own id before its call id, tool output with the item of its latest call, anything else with its call id |
| RolloutTurns.QuestionFiledExactly | apps/owner/local-tmux-owner/appserver_rollout.py:199-217 | A line is filed with the question then in force in its turn; tool output with the one its call was made for, if any |
| RolloutTurns.InForceExactly | apps/owner/local-tmux-owner/appserver_rollout.py:188-198 | The question in force is the latest of its turn, and there is none exactly if none was asked in it |
| RolloutTurns.OccurrencesCount | apps/owner/local-tmux-owner/appserver_rollout.py:188-198 | The number of a question is how many lines asked it in its turn so far |
| RolloutTurns.IndexIsByTurn | apps/owner/local-tmux-owner/appserver_rollout.py:143-228 | The index of a file by its events alone: under each turn the records of exactly the lines that belong to it |
| RolloutTurns.RestoredByTurn | apps/owner/local-tmux-owner/appserver_rollout.py:42-74 | A call, its output without a turn and a search without one are all restored under the turn that was started |
| RolloutRewrites.RightExactlyIfIntact | apps/owner/local-tmux-owner/appserver_rollout.py:150-166 | A change that keeps the inode and the indexed length is answered rightly, whatever the lines mean, if and only if the indexed bytes are still there |
| RolloutRewrites.UnnoticedRewrite | apps/owner/local-tmux-owner/appserver_rollout.py:150-166 | Counterexample outside that condition: a file rewritten in place is answered as it was before |
| DeliveryStore.LoadAfterPersist | apps/owner/local-tmux-owner/delivery_store.py:62-169 | What was persisted is loaded again exactly while the record is within size and time to live, with every field the delivery decisions read |
| Delivery.SafeSnoc | apps/owner/local-tmux-owner/delivery_service.py:132-204 | A run stays safe when its next event is one that what the id holds allows |
| Delivery.DeliveredAtMostOnce | apps/owner/local-tmux-owner/delivery_service.py:132-204 | Over any run of sends, failures, crashes and restarts: after a checkpoint nothing is pasted again, after acceptance no key is sent again, and nothing is sent for another session or text, unless the process restarted or pruned the entry after it had been idle past its time to live |
| Delivery.DeliveredOnceDurably | apps/owner/local-tmux-owner/delivery_service.py:132-204 | The same across restarts, pruning and later failed writes: once a checkpoint was durably written, and while the record of the id stays readable and within its time to live, its text is never pasted again, nothing is sent after acceptance, and nothing is sent for other content |
| Delivery.OthersInterleave | apps/owner/local-tmux-owner/delivery_service.py:132-132 | A step a send may take next stays allowed after any step of a send of another id and any pruning that spares its entry, so steps of different sends may alternate |
| Delivery.RecordPersists | apps/owner/local-tmux-owner/delivery_store.py:62-169 | A durable record upholds its checkpoint through every event while it is fresh, whether or not the id is in memory |
| Delivery.EntryPersists | apps/owner/local-tmux-owner/delivery_service.py:61-71 | Until memory forgets it, a reached checkpoint is never weakened, nor bound to another session or text |
| Delivery.DeliveryService.PastedAgainExactly | apps/owner/local-tmux-owner/delivery_service.py:134-137 | For an id reached in this run, a send finds nothing of it, and so may paste, if and only if its entry is gone or idle past its time to live and no record of it is readable and within its own; the entry goes only by a restart or a prune |
| Delivery.UnwrittenIsForgotten | apps/owner/local-tmux-owner/delivery_service.py:61-71 | Counterexample on the service: accept a text, let its durable write fail, restart; the next send finds nothing and reaches its paste |
| Delivery.DeliveryService.WrittenIsFound | apps/owner/local-tmux-owner/delivery_service.py:134-137 | Whatever happened since, a send starts from a checkpoint no weaker than the one durably written, while its record is fresh |
| Delivery.DeliveryService.FoundIsHeld | apps/owner/local-tmux-owner/delivery_service.py:134-137 | A lookup finds exactly the checkpoint the run says the id holds |
| Delivery.DeliveryService.Send | apps/owner/local-tmux-owner/delivery_service.py:102-204 | One send in full: no session, an empty or too long text and a slash command are refused, each exactly when it occurs, before anything else; id reuse for other content is refused exactly then; an accepted id is answered with its receipt and nothing else; a new or pasted id gets the answer that what is seen in the terminal calls for, with exactly the pastes and keys that answer needs; a receipt means accepted for exactly this session and text; the run only grows, by events about this id and by pruning |
| Delivery.DeliveryService.SendText | apps/owner/local-tmux-owner/delivery_service.py:132-204 | Under its locks a send is refused for id reuse exactly when other content is found, repeats the receipt of an accepted id without a paste or a key, and otherwise delivers |
| Delivery.DeliveryService.Recall | apps/owner/local-tmux-owner/delivery_service.py:134-137 | A send starts from the in-memory entry that survives pruning, else from the durable record, which it brings back into memory; a record found expired may be deleted |
| Delivery.DeliveryService.Deliver | apps/owner/local-tmux-owner/delivery_service.py:154-205 | A launch line goes to a pane without an agent, anything else to the agent, and the answer, the pastes and the keys are those that what was seen calls for; the run only grows by events about the id |
| Delivery.DeliveryService.DeliverToAgent | apps/owner/local-tmux-owner/delivery_service.py:174-204 | An unsent draft keeps a new text out, exactly then, and nothing is pasted or pressed |
| Delivery.DeliveryService.PasteAndSubmit | apps/owner/local-tmux-owner/delivery_service.py:204-362 | A new text is pasted once; without sight of it no key is pressed, and a receipt needs both the paste seen and the evidence of acceptance |
| Delivery.DeliveryService.Continue | apps/owner/local-tmux-owner/delivery_service.py:281-362 | A text pasted before is never pasted again; gone from the composer it is accepted exactly on evidence, and otherwise the submit key is pressed until the limit |
| Delivery.DeliveryService.SendShellLine | apps/owner/local-tmux-owner/delivery_service.py:154-173 | Typing a launch line sends two keys at most, pastes nothing, and accepts only after both |
| Delivery.DeliveryService.PasteText | apps/owner/local-tmux-owner/delivery_service.py:204-280 | One paste at most; the pasted checkpoint is reached only when the paste was seen, and a paste not seen is reported as unconfirmed |
| Delivery.DeliveryService.RecoverSubmission | apps/owner/local-tmux-owner/delivery_service.py:281-304 | A pasted text that has left the composer is accepted exactly on evidence and otherwise reported as ambiguous: no paste and no key either way |
| Delivery.DeliveryService.Submit | apps/owner/local-tmux-owner/delivery_service.py:306-362 | Submit keys up to the allowed number, all of them before giving up, no paste, and acceptance only after the submission was seen |
| Delivery.DeliveryService.Remember | apps/owner/local-tmux-owner/delivery_service.py:61-71 | Reaching a checkpoint stores it in memory even when the durable write fails, and a write that succeeds leaves exactly its record |
| Delivery.DeliveryService.Persist | apps/owner/local-tmux-owner/delivery_store.py:62-109 | A write either leaves exactly the record of the entry or changes nothing |
| Delivery.DeliveryService.Prune | apps/owner/local-tmux-owner/delivery_service.py:73-82 | Pruning forgets exactly the entries idle past their time to live, changes no durable lookup, and says so in the run |
| Delivery.DeliveryService.Cleanup | apps/owner/local-tmux-owner/delivery_store.py:42-60 | Only expired records are deleted, which no lookup can tell |
| Delivery.DeliveryService.Restart | apps/owner/local-tmux-owner/delivery_service.py:21-27 | After a restart memory is empty and the durable records are as they were |
| KeyedLocks.LockRegistry.Enter | apps/owner/local-tmux-owner/delivery_service.py:28-34 | Entering finds the entry of the key or makes it, and counts one more user; every key keeps exactly one shared entry while it has users |
| KeyedLocks.LockRegistry.Acquire | apps/owner/local-tmux-owner/delivery_service.py:35-36 | The lock is taken exactly when no other user of the key is inside |
| KeyedLocks.LockRegistry.Leave | apps/owner/local-tmux-owner/delivery_service.py:37-41 | The entry of a key exists afterwards exactly when another thread still uses the key |
| KeyedLocks.BodiesNeverOverlap | apps/owner/local-tmux-owner/delivery_service.py:28-41 | In every reachable state all users of a key hold the same lock, and at most one of them is inside |
| KeyedLocks.OrderKept | apps/owner/local-tmux-owner/delivery_service.py:132-132 | Every step of every send keeps the order: message lock only inside the session lock |
| KeyedLocks.NoDeadlock | apps/owner/local-tmux-owner/delivery_service.py:132-132 | While any send is under way the next step of one of them is not held up by a lock |
| KeyedLocks.SomeoneMoves | apps/owner/local-tmux-owner/delivery_service.py:132-132 | In the two lock registries themselves some send takes such a step, and both registries and the order stay sound |
| KeyedLocks.Advance | apps/owner/local-tmux-owner/delivery_service.py:35-41 | A thread in a scoped lock moves on unless it waits for a lock that is not free |
| Journal.CursorRoundTrip | apps/owner/local-tmux-owner/appserver_events.py:12-31 | A rendered cursor parses back to itself exactly when its epoch is not empty, even if the epoch contains colons |
| Journal.EventJournal.Publish | apps/owner/local-tmux-owner/appserver_events.py:87-128 | Events are numbered consecutively; the journal holds the longest suffix of all storable events within both limits, with an exact byte count |
| Journal.EventJournal.Trim | apps/owner/local-tmux-owner/appserver_events.py:130-133 | Trimming from the front leaves the longest suffix within both limits |
| Journal.LongestAfterAppend | apps/owner/local-tmux-owner/appserver_events.py:120-133 | Trimming after each publication never keeps less than trimming the whole history once |
| Journal.EventJournal.Replay | apps/owner/local-tmux-owner/appserver_events.py:135-150 | A replay answer is exactly the storable events after the cursor, in order; a foreign or future cursor resets; a gap is answered exactly when nothing up to the next event is held |
| Journal.NothingLost | apps/owner/local-tmux-owner/appserver_events.py:143-150 | Selecting after a cursor from the retained suffix equals selecting from the whole history when the suffix reaches the cursor |
| Journal.EmptyAnswersGap | apps/owner/local-tmux-owner/appserver_events.py:143-147 | While nothing storable was ever published every earlier cursor is answered with a gap |
| Journal.SpuriousGap | apps/owner/local-tmux-owner/appserver_events.py:120-150 | A gap answer does not imply that a storable event was lost: one oversized event alone produces it |
| Journal.GapMeansLoss | apps/owner/local-tmux-owner/appserver_events.py:143-150 | A lost event is always answered with a gap; if the next event is storable a gap means exactly that it is gone; and in general a gap means a loss if and only if something was lost, or the next event is storable, or something up to the cursor is still held |
| Actor.RunOrdered | apps/owner/local-tmux-owner/appserver_session.py:524-650 | After any notifications and recoveries the item order has no duplicates and lists exactly the known items |
| Actor.EmptyTextKinds | apps/owner/local-tmux-owner/appserver_session.py:262-319 | The projected text of a completed item is empty exactly for reasoning items and items without a type |
| Actor.ConvergesExactly | apps/owner/local-tmux-owner/appserver_session.py:622-650 | A completion overrides whatever was streamed if and only if its projected text is not empty or nothing had been streamed |
| Actor.ActorConverges | apps/owner/local-tmux-owner/appserver_session.py:524-650 | Over any run of notifications and recoveries: from a completion with projected text on, whatever came before, and whatever late deltas, other items or repetitions of it follow, the item reads as in an actor that saw the completion alone, and is final |
| Actor.LateDeltaIgnored | apps/owner/local-tmux-owner/appserver_session.py:557-613 | A delta for a final item changes nothing and emits nothing |
| Actor.UnconcernedKept | apps/owner/local-tmux-owner/appserver_session.py:456-522 | A notification about other items leaves an item as it is |
| Actor.RepeatIsSilent | apps/owner/local-tmux-owner/appserver_session.py:622-650 | A repeated completion changes and emits nothing if and only if the text had been settled by the first, or nothing had been streamed |
| Actor.HydrateConverges | apps/owner/local-tmux-owner/appserver_session.py:768-798 | Recovering a thread over partial streaming agrees, item by item, with recovering it into a fresh actor whenever the recovered text is not empty |
| Actor.ReasoningKeepsStreamedText | apps/owner/local-tmux-owner/appserver_session.py:637-638 | Counterexample for the remaining kind: text streamed into an item survives its recovery as reasoning |
| ActorStreams.RunStreams | apps/owner/local-tmux-owner/appserver_session.py:546-620 | Over any run, an item that is not final holds the text it began with followed by all its deltas in the order they came, and each output field the last characters of what it began with and all its output |
| ActorStreams.HeadingGetsABreak | apps/owner/local-tmux-owner/appserver_session.py:559-561 | The one exception: an agent delta that finds exactly the bare plan heading puts a line break first |
| ActorStreams.MessageRepeatsStream | apps/owner/local-tmux-owner/appserver_session.py:622-650 | A message completed with the text that was streamed reads as before, if and only if its stream did not break the heading |
| ActorStreams.PlanRepeatsStream | apps/owner/local-tmux-owner/appserver_session.py:573-596 | A plan completed with the text streamed under its heading reads as before |
| ActorStreams.ActiveTurnExactly | apps/owner/local-tmux-owner/appserver_session.py:456-522 | Over any run the active turn is the one last begun, or last found under way by a recovery, and not ended since |
| ActorStreams.LifecycleExactly | apps/owner/local-tmux-owner/appserver_session.py:652-669 | A session runs from the beginning of a turn or a recovery with one under way, rests when a turn completes, and otherwise takes the status it is told |
| ActorStreams.DeltasAreTold | apps/owner/local-tmux-owner/appserver_session.py:546-596 | A text delta is told once unless its item is final, with its length, the length of the text it made, and the next revision |
| ActorStreams.OutputIsTold | apps/owner/local-tmux-owner/appserver_session.py:598-620 | An output delta is told once for a known live item, and has no effect otherwise |
| ActorStreams.ItemsAreTold | apps/owner/local-tmux-owner/appserver_session.py:622-650 | A start is always told, a completion exactly if it changed the item |
| ActorStreams.TurnsAreTold | apps/owner/local-tmux-owner/appserver_session.py:652-669 | The beginning and the end of a turn are told once each, the end after the items it completes |
| WebSessionActor.WebSessionActor.ApplyNote | apps/owner/local-tmux-owner/appserver_session.py:456-522 | The mutating handler of every modelled notification has exactly the effect and the events the convergence results speak about |
| WebSessionActor.WebSessionActor.ItemCompletes | apps/owner/local-tmux-owner/appserver_session.py:622-650 | A completion is emitted exactly when it changed something, with the next revision of its item |
| WebSessionActor.WebSessionActor.TextArrives | apps/owner/local-tmux-owner/appserver_session.py:546-596 | Agent and plan deltas go to the end of the text of a live item, create a missing one with its own initial text, and never touch a final one |
| WebSessionActor.WebSessionActor.FieldArrives | apps/owner/local-tmux-owner/appserver_session.py:598-620 | Output deltas extend the bounded tail of one raw field of a known live item, and nothing else |
| WebSessionActor.WebSessionActor.HydrateThread | apps/owner/local-tmux-owner/appserver_session.py:768-798 | The recovery loops complete the items of all turns silently and settle lifecycle and active turn as the convergence results assume |
| ActorSegments.MessageBlocks | apps/owner/local-tmux-owner/appserver_session.py:724-754 | The walk over the items gives each shown item the last question of its turn, from the first one on |
| ActorSegments.SegmentsAgree | apps/owner/local-tmux-owner/appserver_history.py:87-125 | Segmenting the live blocks of an actor again gives every block the segment key the actor had assigned if and only if no turn without a projected question shows both a user message and something else |
| ActorSegments.TypedExactly | apps/owner/local-tmux-owner/appserver_session.py:541-543 | Item types and raw items stay in agreement exactly as long as no item of another kind is restarted as a user message |
| ActorSegments.RunSegmentsAgree | apps/owner/local-tmux-owner/appserver_session.py:724-754 | Over every run of notifications and recoveries the history shows the segments of the actor exactly when no turn is mixed in that way, and a run that restarts no item as a user message mixes none |
| ActorSegments.RetypedItemDisagrees | apps/owner/local-tmux-owner/appserver_session.py:541-543 | Counterexample outside that condition, as a run: an item streamed as an answer, then restarted as a user message, and another answer, which the history files under another key than the actor |
| ActorSegments.ActorIdsAreDistinct | apps/owner/local-tmux-owner/appserver_session.py:724-754 | The blocks of an actor have distinct ids, and keep them through the public projection up to the merge |
| ActorSegments.ActorHistoryShows | apps/owner/local-tmux-owner/appserver_history.py:142-158 | No history of an actor, in any state a run can reach and with any durable activity, loses a message, an output, a plan or an unsettled process block |
| ActorSegments.ItemsAreShown | apps/owner/local-tmux-owner/appserver_session.py:724-754 | The history of an actor shows each message and plan and all unsettled activity that has a text, with its id, kind, text and state, whatever durable activity is merged into it |
| ActorSegments.SnapshotCanRepeatIds | apps/owner/local-tmux-owner/appserver_history.py:256-281 | A thread snapshot read without an actor can list an item twice, and then the merge loses the record of a failed command |
| DeltaBatching.ApplyStepsUp | apps/owner/local-tmux-owner/appserver_session.py:524-650 | The item events of any one notification carry revisions above all earlier ones of their items, in order |
| DeltaBatching.FlushKeeps | apps/owner/local-tmux-owner/appserver_runtime.py:1387-1393 | Publishing a batch moves its characters and count from pending to published, and keeps revisions rising |
| DeltaBatching.QueueKeeps | apps/owner/local-tmux-owner/appserver_runtime.py:1352-1379 | Merging a delta into a batch adds its characters and one to the books of its item and of no other |
| DeltaBatching.PlainKeeps | apps/owner/local-tmux-owner/appserver_runtime.py:555-561 | Publishing any other event after a flush of its item keeps the books and the rising revisions |
| DeltaBatching.DeltaRuntime.FlushDelta | apps/owner/local-tmux-owner/appserver_runtime.py:1387-1393 | A flush, by timer or by force, publishes the one pending batch of an item, if any |
| DeltaBatching.DeltaRuntime.FlushAllDeltas | apps/owner/local-tmux-owner/appserver_runtime.py:1395-1397 | After a full flush published characters and delta counts equal those emitted, for every item |
| DeltaBatching.DeltaRuntime.QueueDelta | apps/owner/local-tmux-owner/appserver_runtime.py:1352-1385 | A delta is published now or waits in the one batch of its item; in every state emitted is published plus pending for each item, published revisions are below pending ones, and neither is ahead of the actor |
| DeltaBatching.DeltaRuntime.PublishEvent | apps/owner/local-tmux-owner/appserver_runtime.py:555-561 | The event is journalled last, after every delta of its item that precedes it; no event that is not a delta is ever lost, repeated or reordered, and none passes a delta of its item |
| DeltaBatching.DeltaRuntime.Notification | apps/owner/local-tmux-owner/appserver_runtime.py:547-561 | A notification updates its actor and passes on exactly the events of that actor: the journal has every event that is not a delta, in the order emitted, and for each item the same deltas between the same marks |
| DeltaBatching.DeltaRuntime.HydrateSession | apps/owner/local-tmux-owner/appserver_runtime.py:456-467 | A recovery between deltas publishes a snapshot, emits no item event and disturbs no balance |
| HistoryPaging.CursorRoundTrip | apps/owner/local-tmux-owner/codex_history.py:218-228 | A printed cursor is read back as its position under the same revision and as expired under any other |
| HistoryPaging.HistoryPage | apps/owner/local-tmux-owner/appserver_history.py:325-383 | The page ends at the position of the cursor, or at the end of the history without one, and is the longest that fits there; a bad or expired cursor, a cursor together with an index and an index out of range are the only errors, each exactly when it occurs |
| HistoryPaging.PageBefore | apps/owner/local-tmux-owner/appserver_history.py:336-351 | The page before a cursor is the longest window ending there within the page limit and the budget |
| HistoryPaging.PageAround | apps/owner/local-tmux-owner/appserver_history.py:330-351 | An around page holds its index whatever is trimmed, is over budget only if single, and was cut no further than needed |
| HistoryPaging.TrimFront | apps/owner/local-tmux-owner/appserver_history.py:342-346 | Dropping turns from the front leaves the longest end of the window within the budget |
| HistoryPaging.FollowOlder | apps/owner/local-tmux-owner/appserver_history.py:325-383 | Asking for the page of each olderCursor in turn, from the newest on, ends, and the pages put back in order are the whole history exactly once |
| HistoryPaging.NewerIsGapless | apps/owner/local-tmux-owner/appserver_history.py:372-372 | The page newerCursor leads to joins the last one if and only if the turns up to its position fit the budget |
| HistoryPaging.NewerCanSkip | apps/owner/local-tmux-owner/appserver_history.py:372-372 | Counterexample outside that condition: newerCursor skips a turn |
| HistoryMerge.ChooseBlocks | apps/owner/local-tmux-owner/appserver_history.py:207-231 | Each durable entry is represented, in durable order, by its live version by id, else by the first unused live look-alike, else by itself |
| HistoryMerge.MergeProcess | apps/owner/local-tmux-owner/appserver_history.py:195-243 | The merged process blocks are those representatives followed by exactly the surviving unused live blocks, in live order |
| HistoryMerge.LookAlikeExactly | apps/owner/local-tmux-owner/appserver_history.py:161-169 | Two blocks look alike if and only if both have public activity of one kind and title, or neither has and their normalised texts agree |
| HistoryMerge.TypeByWords | apps/owner/local-tmux-owner/appserver_history.py:172-186 | Without public activity the first words of a text tell its type, in either tense |
| HistoryMerge.MergeTurnActivity | apps/owner/local-tmux-owner/appserver_history.py:195-253 | Without durable activity nothing changes; with it the merged blocks stand where the process blocks began, else before the first output, else at the end |
| HistoryMerge.NothingInvented | apps/owner/local-tmux-owner/appserver_history.py:195-243 | Every merged block is a live or a durable one |
| HistoryMerge.UnsettledSurvives | apps/owner/local-tmux-owner/appserver_history.py:232-243 | With distinct live ids, as every actor gives them, every running, waiting, failed or declined live block survives, and so does every live block after the last matched one |
| HistoryMerge.SurvivesExactly | apps/owner/local-tmux-owner/appserver_history.py:207-243 | An unsettled live block survives the merge with every durable activity if and only if each live block with its id looks like it, and the first and the last of them equal it |
| HistoryMerge.LaterSurvives | apps/owner/local-tmux-owner/appserver_history.py:232-243 | Every live block after the last matched one survives, whatever the ids |
| HistoryMerge.LastMatchedExactly | apps/owner/local-tmux-owner/appserver_history.py:207-231 | The last matched position is that of a chosen block, and no chosen block is later |
| HistoryMerge.LeftoverExactly | apps/owner/local-tmux-owner/appserver_history.py:232-243 | With distinct ids, a live block that stands for no durable entry is kept if and only if durable records do not cover its type, or it is unsettled, or later than the last live block they match |
| HistoryMerge.DuplicateIdsLose | apps/owner/local-tmux-owner/appserver_history.py:214-216 | Counterexample: of two live blocks with one id an unsettled earlier one is lost |
| HistoryMerge.MergeKeepsConversation | apps/owner/local-tmux-owner/appserver_history.py:244-253 | The other blocks are kept exactly and in order, and the process blocks of the result are the merged ones |
| HistorySegments.FindQuestions | apps/owner/local-tmux-owner/appserver_history.py:92-105 | The question maps give each turn its first question and each reference the question with that text and occurrence |
| HistorySegments.ReferencesAreDistinct | apps/owner/local-tmux-owner/appserver_history.py:96-105 | No two questions share a reference |
| HistorySegments.PublicExactly | apps/owner/local-tmux-owner/appserver_history.py:43-80 | Every value with an identity and a text that is not blank is shown, trimmed and otherwise as it was, and nothing else is |
| HistorySegments.LastNamedDecides | apps/owner/local-tmux-owner/appserver_history.py:109-118 | Within a run of one turn a block belongs to the question last named before it |
| HistorySegments.ElseTurnDecides | apps/owner/local-tmux-owner/appserver_history.py:109-118 | With none named before it in the run, it belongs to the first question of its turn, and to the turn itself if it asks none |
| HistorySegments.GroupBlocks | apps/owner/local-tmux-owner/appserver_history.py:105-125 | The grouping loop files each block under its segment, with the keys in order of first appearance and each turn with the segments it opened |
| HistorySegments.KeysAreDistinct | apps/owner/local-tmux-owner/appserver_history.py:120-125 | The segment order lists exactly the keys in use, each once |
| HistorySegments.PlacedIsShown | apps/owner/local-tmux-owner/appserver_history.py:126-141 | Durable activity is placed only in segments that are shown, and only as process blocks |
| HistorySegments.QuestionDecides | apps/owner/local-tmux-owner/appserver_history.py:132-134 | Activity that refers to a question of the history lands in the segment of that question |
| HistorySegments.ElseNameOrTurnDecides | apps/owner/local-tmux-owner/appserver_history.py:126-141 | Other activity lands in the shown segment it names, else in the last segment its turn opened, and nowhere if and only if its turn opened none |
| HistorySegments.PlacedExactly | apps/owner/local-tmux-owner/appserver_history.py:126-141 | What is placed is exactly the activity that has a place |
| HistorySegments.TextsJoin | apps/owner/local-tmux-owner/appserver_history.py:142-158 | The text of a segment is that of its blocks, each under the mark of who says it, joined by blank lines |
| HistorySegments.ProjectMessageBlocks | apps/owner/local-tmux-owner/appserver_history.py:82-158 | Each key appears once, in order, holding the merge of exactly its blocks and its placed activity |
| HistorySegments.SegmentsPartition | apps/owner/local-tmux-owner/appserver_history.py:142-158 | Without durable activity the segments partition the public blocks, in order, with distinct keys and none empty |
| HistorySegments.HistoryShows | apps/owner/local-tmux-owner/appserver_history.py:142-158 | A whole history of blocks with distinct ids shows each block that is no process block, and each unsettled one that is, in the segment of its key |
| Workbench.StableSortSorts | apps/gateway/server/workbench_service.py:129-130 | The recency sort is descending and keeps equally recent sessions in their order |
| Workbench.SortIsMerge | apps/gateway/server/workbench_service.py:129-130 | Sorting the concatenation of sorted lists is their stable merge |
| Workbench.TakeMerge | apps/gateway/server/workbench_service.py:79-80 | The first n of a merge depend only on the first n of each side |
| Workbench.TopOfMerge | apps/gateway/server/workbench_service.py:121-130 | The top n of the global order depends only on the top n of each workstation, with ties |
| Workbench.PrefixesReach | apps/gateway/server/workbench_service.py:79-80 | The fetched prefixes suffice for every page up to the fetch cap |
| Workbench.ExactPage | apps/gateway/server/workbench_service.py:137-141 | With one workstation the page it answers is the page of its history |
| Workbench.Payload | apps/gateway/server/workbench_service.py:116-157 | The answered page, clamped to the last one, is the slice of the whole sorted history whenever it lies within the cap or nothing was cut, and otherwise that of the fetched prefixes |
| Workbench.PagesTile | apps/gateway/server/workbench_service.py:131-157 | Pages one to totalPages put together are the history |
| Workbench.PagesAreFilled | apps/gateway/server/workbench_service.py:124-125 | The number of pages is the least that holds the history: every page up to the last shows something, all but the last are full, and none after it does |
| Workbench.BeyondTheCap | apps/gateway/server/workbench_service.py:79-80 | For every page beyond the cap there are two workstations whose merged page is wrong |
| SendTasks.NoRequestAfterSuccess | apps/owner/local-tmux-owner/appserver_runtime.py:682-740 | Over any run: between a success and a later request for the same id its receipt was dropped |
| SendTasks.SendCoordinator.Send | apps/owner/local-tmux-owner/appserver_runtime.py:682-740 | The part of a send that does not wait issues no request; its answer by case: a bad text or id, a live receipt, a message the actor shows, a registered task by its stage, and only without any of them a new task; other content is rejected |
| SendTasks.SendCoordinator.OneAtATime | apps/owner/local-tmux-owner/appserver_runtime.py:705-728 | In every state at most one task of an id is unfinished, and at most one of a session is calling |
| SendTasks.SendCoordinator.Begin | apps/owner/local-tmux-owner/appserver_runtime.py:742-775 | A queued task issues its one request only when it holds its session lock: a steer while a turn is active, else a start |
| SendTasks.SendCoordinator.Finish | apps/owner/local-tmux-owner/appserver_runtime.py:742-775 | The end of a call releases the lock and is logged as a success only if it was one |
| SendTasks.SendCoordinator.TaskCompleted | apps/owner/local-tmux-owner/appserver_runtime.py:796-820 | A completed task is forgotten only if it is still the registered one; a success leaves a receipt with its binding, a failure leaves the receipts as they were |
| SendTasks.SendCoordinator.PruneReceipts | apps/owner/local-tmux-owner/appserver_runtime.py:822-825 | Pruning drops exactly the stale receipts |
| Supervisor.SessionSupervisor.OneRecovery | apps/owner/local-tmux-owner/appserver_session_supervisor.py:303-326 | In every state a session has at most one recovery at work |
| Supervisor.SessionSupervisor.ScheduleRecovery | apps/owner/local-tmux-owner/appserver_session_supervisor.py:303-322 | A recovery starts, tracked, exactly when none is at work; a restart request is remembered either way |
| Supervisor.SessionSupervisor.RestoreRecord | apps/owner/local-tmux-owner/appserver_session_supervisor.py:237-253 | Restoring starts a tracked recovery exactly for sessions that are neither ready nor being recovered |
| Supervisor.SessionSupervisor.Handle | apps/owner/local-tmux-owner/appserver_session_supervisor.py:281-301 | What each report does to clients, worker states, counted probes and restart requests; a recovery starts exactly when the current client is lost or its probes are, and a report of a replaced client changes nothing but probe state in two named cases |
| Supervisor.SessionSupervisor.TaskDone | apps/owner/local-tmux-owner/appserver_session_supervisor.py:324-326 | A finished recovery is forgotten only while it is the tracked one |
| Supervisor.SessionSupervisor.StopRecovery | apps/owner/local-tmux-owner/appserver_session_supervisor.py:478-482 | Stopping cancels the recovery of that session and of no other |
| Supervisor.SessionSupervisor.DropClient | apps/owner/local-tmux-owner/appserver_session_supervisor.py:483-487 | The client is dropped only if it is still the one of the session |
| Supervisor.SessionSupervisor.WorkerStopped | apps/owner/local-tmux-owner/appserver_session_supervisor.py:488-499 | What was known of a worker is forgotten only after it stopped |
| Supervisor.SessionSupervisor.StopWorker | apps/owner/local-tmux-owner/appserver_session_supervisor.py:471-499 | In any mix of reports and steps of other recoveries, a new recovery of the session is started during its stop if and only if, while the cancelled one was awaited or while closing, the client current then was lost or its probes were; otherwise the stop is final |
| Supervisor.SessionSupervisor.TakeAll | apps/owner/local-tmux-owner/appserver_session_supervisor.py:281-361 | Over any steps, a recovery of a session that has none at work is started exactly at the first loss of its client or probes, and until then nothing else touches its client or counts |
| Supervisor.SessionSupervisor.Take | apps/owner/local-tmux-owner/appserver_session_supervisor.py:216-361 | What a report, or a recovery opening a client or ending, means for every session without a recovery at work |
| Supervisor.QuietStopIsFinal | apps/owner/local-tmux-owner/appserver_session_supervisor.py:471-499 | Without a loss reported by the current client the stop is final; replaced clients cannot undo it |
| Supervisor.RestartExactly | apps/owner/local-tmux-owner/appserver_session_supervisor.py:281-456 | Any steps start a recovery if and only if among the reports of the client one is its loss or that of a call, or a second lost probe without a sign of life since the first |
| Supervisor.SessionSupervisor.CloseConnections | apps/owner/local-tmux-owner/appserver_session_supervisor.py:501-518 | Shutdown leaves no recovery at work and no client |
| Supervisor.RecoveryOutlivesStop | apps/owner/local-tmux-owner/appserver_session_supervisor.py:478-487 | Counterexample outside that condition: a call lost while the cancelled recovery is awaited starts one that outlives the stop |
| RecoveryPacing.RecoveryRun.RecordFailure | apps/owner/local-tmux-owner/appserver_session_supervisor.py:363-373 | Fewer than three failures are ever stored; the third within the window opens the circuit and clears the list |
| RecoveryPacing.RecoveryRun.BeginAttempt | apps/owner/local-tmux-owner/appserver_session_supervisor.py:335-345 | No attempt begins before the circuit closes |
| RecoveryPacing.RecoveryRun.Recover | apps/owner/local-tmux-owner/appserver_session_supervisor.py:328-361 | Over a run of any length: after a failure that opened the circuit nothing is tried for the open time, and after failure n at least the n-th backoff passes |
| RecoveryPacing.RecoveryRun.ThreeFailuresPause | apps/owner/local-tmux-owner/appserver_session_supervisor.py:363-373 | Three failures in a row within sixty seconds include one after which nothing is tried for fifteen |
| RecoveryPacing.BackoffBounds | apps/owner/local-tmux-owner/appserver_session_supervisor.py:361-361 | The backoff grows within its bounds and reaches the longest at the eighth failure, not before |
| Broker.AppServerInteractionBroker.Request | apps/owner/local-tmux-owner/appserver_requests.py:118-137 | A request is declined at once, conceding nothing, exactly when its session has one pending or nothing can be asked; otherwise it is entered in both maps under a generation above all earlier ones of the session |
| Broker.AppServerInteractionBroker.Resume | apps/owner/local-tmux-owner/appserver_requests.py:128-137 | The waiting request returns the answer its future was resolved with, which is a proper one, and leaves both maps |
| Broker.AppServerInteractionBroker.Abort | apps/owner/local-tmux-owner/appserver_requests.py:128-137 | A cancelled request leaves both maps without overwriting an answer already given |
| Broker.AppServerInteractionBroker.Respond | apps/owner/local-tmux-owner/appserver_requests.py:143-191 | The outcome of every response, by case; only a current, waiting interaction of that session is resolved, once, and a repeated response is answered from its receipt |
| Broker.AppServerInteractionBroker.Cancel | apps/owner/local-tmux-owner/appserver_requests.py:193-220 | A cancel is refused exactly when there is no refusal to give; otherwise it answers the waiting interaction, unless its request id is invalid, already used, or the interaction is resolved, with a refusing choice or no answer to every question |
| Broker.CancelHasARefusal | apps/owner/local-tmux-owner/appserver_requests.py:222-316 | Every interaction advertises cancel, but it can be carried out if and only if the method is not a permissions request nor a command whose offered decisions only accept |
| Broker.DeclinedRefuses | apps/owner/local-tmux-owner/appserver_requests.py:81-97 | A declined request is never accepted or granted, and no question of it answered, in the vocabulary of its method |
| Broker.OffersArePermitted | apps/owner/local-tmux-owner/appserver_requests.py:302-316 | A command offers exactly the known decisions the agent allows, and only a refusal when it allows none of them |
| Broker.GrantsAreAsAsked | apps/owner/local-tmux-owner/appserver_requests.py:262-273 | Permissions are offered exactly as asked, for the turn and for the session, and otherwise not at all |
| Broker.OffersBothWays | apps/owner/local-tmux-owner/appserver_requests.py:253-302 | File changes and the older methods offer to go ahead and to refuse, in the vocabulary of the method |
| Broker.AskedExactly | apps/owner/local-tmux-owner/appserver_requests.py:318-349 | The questions asked are those with a text and an id |
| Broker.AnswersAreSubmitted | apps/owner/local-tmux-owner/appserver_requests.py:358-371 | Each question asked is answered with exactly the texts submitted for it that are not blank, in their order |
| Broker.AnswersAreProper | apps/owner/local-tmux-owner/appserver_requests.py:170-176 | Every answer is the response of an offered choice, or text for exactly the questions asked |
| Broker.QuestionsAreAnswered | apps/owner/local-tmux-owner/appserver_requests.py:358-371 | Submitted answers are restricted to the asked ids and to text that is not blank |
| Broker.IdentityDecides | apps/owner/local-tmux-owner/appserver_requests.py:350-371 | Submissions that count as the same request would be answered alike, so a receipt may stand in for the second |
| Broker.FirstChoiceIsOffered | apps/owner/local-tmux-owner/appserver_requests.py:173-176 | An option is found exactly when it is one of the offered choices |
| Menus.InteractionService.Snapshot | apps/owner/local-tmux-owner/interaction_service.py:94-115 | The generation of a session never decreases, and grows exactly when what is shown changed |
| Menus.ChangesCount | apps/owner/local-tmux-owner/interaction_service.py:101-108 | Two looks have the same generation if and only if nothing different was shown in between |
| Menus.IdsExpire | apps/owner/local-tmux-owner/interaction_service.py:117-131 | An id is current exactly until what is shown first changes, even if the same menu reappears |
| Menus.OldIdsAreStale | apps/owner/local-tmux-owner/interaction_service.py:225-238 | An id issued earlier is the current one only if nothing else was shown since |
| Menus.KeysReachTheOption | apps/owner/local-tmux-owner/interaction_service.py:240-265 | The arrow keys move the selection by the shortest way to exactly the chosen, enabled option, and Enter comes once and last |
| Menus.InteractionService.Respond | apps/owner/local-tmux-owner/interaction_service.py:291-365 | The outcome by case: receipt, menu on the screen, plan; keys are pressed only for the id of the menu on the screen at that moment, exactly those of the plan, one named key for each action, and never for a request id with a receipt |
| Menus.InteractionService.WaitForTransition | apps/owner/local-tmux-owner/interaction_service.py:276-289 | Polling stops at the first look that no longer shows the menu; a change first seen when time is up is not reported |
| Registry.NextName | apps/owner/local-tmux-owner/session_namespace.py:26-31 | For any finite set of used names the count ends, at the least unused number |
| Registry.NamesAreNames | apps/owner/local-tmux-owner/session_namespace.py:11-31 | Every name given out has the public form |
| Registry.NameInjective | apps/owner/local-tmux-owner/session_namespace.py:26-31 | Different numbers give different names |
| Registry.WebSessionRegistry.Load | apps/owner/local-tmux-owner/appserver_registry.py:132-141 | Every record is loaded under its own name with its own worker, and of two with one name or worker the first kept wins |
| Registry.WebSessionRegistry.Add | apps/owner/local-tmux-owner/appserver_registry.py:201-237 | The name is unavailable exactly if it is requested and malformed or taken; otherwise the worker exactly if another record has it; otherwise the record is added under the requested or the least unused name |
| Registry.WebSessionRegistry.ReassignConflicts | apps/owner/local-tmux-owner/appserver_registry.py:178-199 | Exactly the externally owned names are vacated, oldest record first and by name among equals, to distinct names used nowhere; every other record and every other field is kept |
| Registry.OneMoved | apps/owner/local-tmux-owner/appserver_registry.py:190-197 | One more rename keeps all that a partly done reassignment guarantees |
| Registry.WebSessionRegistry.Resolve | apps/owner/local-tmux-owner/session_namespace.py:52-73 | After a reassignment no name is owned by both backends, and each is owned by the one that has it |
| Timeline.NewestPerOwner | apps/owner/local-tmux-owner/command_timeline.py:248-260 | Of each owner exactly its newest events stay, in order |
| Timeline.TrimmedOnce | apps/owner/local-tmux-owner/command_timeline.py:248-260 | Trimming brings any list within both caps, changes nothing that already is, and is idempotent |
| Timeline.StaysWhileThereIsRoom | apps/owner/local-tmux-owner/command_timeline.py:248-260 | An event is dropped only for as many newer ones as a cap allows |
| Timeline.LastStays | apps/owner/local-tmux-owner/command_timeline.py:346-348 | The event just begun is never dropped, and stays last |
| Timeline.CommandTimelineStore.Trim | apps/owner/local-tmux-owner/command_timeline.py:248-260 | The backward walk with per-owner counters keeps the newest events both caps allow |
| Timeline.CommandTimelineStore.Begin | apps/owner/local-tmux-owner/command_timeline.py:302-352 | A request seen before answers with its stored event or is refused as reused, changing nothing; a new one becomes the last event, and a request of an owner never has two |
| Timeline.CommandTimelineStore.Update | apps/owner/local-tmux-owner/command_timeline.py:354-379 | An update changes the event with the id and no other; new metadata goes over old, who asked what and when stays, and a finished command is stamped and waits for nothing |
| Timeline.CommandTimelineStore.Restart | apps/owner/local-tmux-owner/command_timeline.py:219-246 | After a restart every event that was under way has failed, then, and waits for nothing; finished events are as they were, and nothing is lost unless the file was too large to read back or becomes so by marking interrupted events |
| Timeline.OversizedIsLost | apps/owner/local-tmux-owner/command_timeline.py:262-269 | What is saved is lost with the next restart if and only if the list exceeds the limit and its newer half does too |
| Timeline.CommandTimelineStore.Save | apps/owner/local-tmux-owner/command_timeline.py:262-269 | The file holds the list; an oversized list first loses its older half |
| Timeline.CommandTimelineStore.EventForInteraction | apps/owner/local-tmux-owner/command_timeline.py:381-392 | The newest command of the owner for an interaction is found, and is not finished |

## Left out

- Read errors during a rollout scan (appserver_rollout.py:223), which leave appended records without moving the offset.
- Decoding of JSON lines: a decoder from the bytes of a line to an event is a parameter.
- Rendering of tool calls, patches and searches into blocks, and reading their details on demand (appserver_rollout.py:231-320, 384-453).
- Delivery.DeliveryService.Send: one send at a time. That steps of sends of other ids may come in between is shown of the runs (`Delivery.OthersInterleave`), not of the methods; a prune that removes the entry of a send under way is not modelled.
- Delivery.DeliveryService.Cleanup: which expired records a cleanup deletes is open, as file times and failed deletions decide it; foreign files and symbolic links are not modelled.
- The clock of a send: what a send does is judged by the wall clock of its lookup; records of an earlier version found on disk bind a send only from their first recall on.
- Detection of shells, drafts, composer contents and submission evidence in a terminal: open answers.
- Actor: usage, goal, title, settings and interaction fields of the session actor, which touch no item.
- Actor.EmptyTextKinds: the wording of process labels is a parameter; only which texts are empty matters.
- DeltaBatching.DeltaRuntime.Notification: removal of a session while its deltas are pending is not modelled.
- SendTasks.SendCoordinator.Send: the bounded wait for a task just created, which only decides whether its result or its being at work is answered.
- SendTasks.SendCoordinator.Begin: which turn a steer names, and errors of the request beyond success or failure.
- Actor.Hydrate: a snapshot without a list of turns, which only settles the lifecycle.
- ActorSegments.TurnBlocks: the blocks of one turn of a snapshot; the conversation of a snapshot is their concatenation.
- ActorSegments.MessageBlocks: the public activity of a process item is a parameter.
- HistoryMerge.ChooseBlocks: the normalisation of text that look-alikes are compared by is a field of the block.
- HistorySegments.ProjectMessageBlocks: the shortened preview of a segment's question.
- HistoryPaging.PageAround: how an around page is cut is stated for its last step, together with what it must hold; newerCursor and olderCursor are stated by their positions.
- Workbench.Payload: the active sessions, route settings and bridge packages of the same answer.
- Supervisor.SessionSupervisor.StopWorker: a restore of all sessions during a stop.
- Supervisor.SessionSupervisor.Handle: error observers, timestamps of events and probes, and the scheduling of probes.
- Broker.AppServerInteractionBroker.Request: titles, prompts and details shown to the user.
- Menus.InteractionService.Respond: looks of other threads between the check of the id and the reading of the selected row; the command timeline it updates is modelled separately.
- Menus.KeysReachTheOption: a terminal that skips disabled rows when moving the selection.
- Starting a slash command in a terminal (interaction_service.py:367-564): almost all of it is detection of terminal text.
- Registry.WebSessionRegistry.Load: records without a worker from the older file format, and field-level validation of a record.
- Registry.WebSessionRegistry.Add: the form of a worker id, and the truncation of titles and models.
- Updates of record metadata and removal of records (appserver_registry.py:253-292).
- Timeline.CommandTimelineStore.Begin: parsing of an invocation into command and argument is a parameter.
- Timeline.CommandTimelineStore.Restart: a file written by something else; the file is what this store saved.
- HTTP, ASGI and event-stream routes, the browser interface, installation and updates, authentication, sockets and subprocesses.
