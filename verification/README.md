# Verified model of the eeemail core

This project models the parts of eeemail (a Delta Chat core with an email client on top) whose
correctness is a statement about every run rather than about one call: how messages are grouped
into conversations and drawn as a reply tree, how the devices of a call stay in step, how group
membership is kept in timestamps, where sent messages are sorted and what they reference, how the
account manager survives failing writes and power loss, how background fetches interrupt each
other, the Autocrypt header, the relay scheduler and the recoding of images.

SQL tables are maps, the clock is an argument of every step, an operation that awaits inside is one
step unless its pieces interleave, and library calls are functions passed in or outcomes chosen by
the environment. Code that updates fields, tables or buffers is a class or a method with loops,
proved equal to a function of the old state; the theorems are about that function and about runs of
it. `dafny verify dfyconfig.toml` checks everything.

| file | what it models |
|---|---|
| `ThreadGroups.dfy` | conversations and the link graph of Message-IDs: assigning, merging, pruning |
| `ThreadHistory.dfy` | whole histories: components, order of arrival, reprocessing |
| `ThreadStore.dfy` | the tables changed in place |
| `ThreadTree.dfy` | reply parents, the forest built with an explicit stack, the flat listing with depths |
| `Conversations.dfy` | both together: what the `thread` command prints |
| `Calls.dfy` | one call on any number of devices, with lost, repeated and reordered messages |
| `Membership.dfy` | the timestamped `chats_contacts` table as a plain set of members |
| `Messages.dfy` | sorting sent messages to the bottom; the `References` chain |
| `Listing.dfy` | the sorted message list with day markers |
| `Noticing.dfy` | noticing old messages with one maximum per chat |
| `Accounts.dfy`, `AccountOrder.dfy` | account ids and configuration across failures; the user's order |
| `BackgroundFetch.dfy` | the interrupt slot of background fetches |
| `Autocrypt.dfy` | printing, folding and parsing of the Autocrypt header |
| `Relays.dfy` | hourly gate, weekly back-off and target count of relay management |
| `Recoding.dfy` | the size loop and the Exif rule for images |
| `Collections.dfy`, `Text.dfy` | ascending iteration, options, splitting and joining |

## What turned out not to hold

Each of these is promised by a comment or suggested by the code, and fails. The first member named
proves the exact condition under which it does hold, the second a case in which it does not.

- Reprocessing a message "re-derives the same thread" only if the message carries a Message-ID;
  without one every reprocessing opens another thread (`ThreadHistory.ReassignIdempotentIff`,
  `ThreadHistory.AnonymousMoves`).
- A new account is listed last only if the stored order already lists every account. An order missing
  from an older configuration file does not, nor does one set while an account was closed that could
  not be erased (`Accounts.AddedAccountLastIff`, `Accounts.AddedAccountNotLast`,
  `Accounts.AddedToOldFileNotLast`).
- An account is selected whenever there are accounts, unless the first addition is cut short: then
  memory, the file found or the file left by a power loss may select none (`Accounts.AddPicksIff`,
  `Accounts.NothingSelectedIff`, `Accounts.NothingSelectedRuns`).
- A background fetch can be interrupted although nobody asked to stop it, by an earlier fetch that
  was stopped and clears the slot late (`BackgroundFetch.BecomesReadyIff`,
  `BackgroundFetch.InterruptedByPredecessor`).
- A draft that is sent is not always sorted to the bottom: it keeps its old id, and only smaller ids
  are looked at (`Messages.SentDraftLastIff`, `Messages.SentDraftNotLast`).
- The fallback of `References` to the message's own id is dead code once there is a parent, so the
  header can come out empty (`Messages.ReferencesEmptyIff`, `Messages.EmptyReferencesExample`).
- A contact added with a timestamp before the epoch is born removed, unless the same call names it
  twice (`Membership.RefinesIff`, `Membership.BornRemovedExample`), and an operation with an older
  timestamp can move a stored one back (`Membership.MovesBackIff`, `Membership.MovesBackExample`).
- Day markers open their day only for local times from 1970 on, because division truncates
  (`Listing.InWindowIff`, `Listing.BeforeEpochOutside`).
- A printed Autocrypt header is read back only if its address is trimmed and has no semicolon and
  its key verifies (`Autocrypt.RoundTripIff`, `Autocrypt.AddressNotReadBack`).
- An encoder that returned no bytes would make the avatar exceed its limit, since the unscaled image
  is written then (`Recoding.AvatarFitsIff`, `Recoding.EmptyEncodingBreaksLimit`).
- A scaled image is aligned to a multiple of eight pixels only up to 65535, which is cut off without
  aligning (`Recoding.FirstTargetIsLargest`, `Recoding.AlignmentLost`).
- Exif data is removed from every accepted image except those passed as plain files and transparent
  stickers (`Recoding.OriginalKeptIff`, `Recoding.ExifKept`).
- An incoming call shown as missed is over only if it is flagged as ended
  (`Calls.MissedIsFinalIff`, `Calls.MissedCallTaken`).

Where code and comment disagree the model follows the code. The comment on `is_canceled`
(`core/src/calls.rs:139-145`) says that an outgoing call is canceled when the receiver rejects it;
the code marks an outgoing call as canceled when the caller gives up, and as ended when the receiver
declines, and so does the model.

## Model

| member | source | states |
|---|---|---|
| ThreadHistory.GroupsAreComponents | core/src/email/threading.rs:17-29 | after any history of arrivals, reprocessing and pruning, exactly the messages known are filed, and two of them are in one thread if and only if their Message-IDs are connected through link sets not yet forgotten |
| ThreadHistory.ArrivalOrderIrrelevant | core/src/email/threading.rs:25-29 | the messages filed and their grouping are the same for every order and every repetition of the same arrivals |
| ThreadGroups.RunRepresents | core/src/email/threading.rs:124-218 | every history keeps the tables representing the link graph: all IDs filed, linked ones together, others apart, messages without IDs alone, a thread at least as recent as its messages and labelled once one of them has a subject |
| ThreadGroups.AssignRepresents | core/src/email/threading.rs:124-218 | one arrival keeps the tables representing the link graph extended by its link set |
| ThreadHistory.SharedThreadConnected | core/src/email/threading.rs:17-29 | tables in which only connected IDs share a thread put only connected messages into one thread |
| ThreadHistory.ConnectedSharesThread | core/src/email/threading.rs:17-29 | tables in which linked IDs share a thread put all connected messages into one thread |
| ThreadHistory.SameKnowledgeSameGroups | core/src/email/threading.rs:25-29 | two histories, pruning included, that leave the same links known group every pair of messages alike |
| ThreadGroups.AssignLinksTogether | core/src/email/threading.rs:156-197 | after an assignment all IDs of one link set, old or new, share a thread |
| ThreadGroups.AssignAlone | core/src/email/threading.rs:182-188 | a message without linked IDs stays alone in its thread across assignments |
| ThreadGroups.AssignOnlyLinked | core/src/email/threading.rs:156-197 | merging the threads of the linked IDs never joins IDs that are not connected |
| ThreadGroups.PruneRepresents | core/src/email/threading.rs:438-459 | pruning keeps the tables representing the link graph without the conversations that have no live message |
| ThreadGroups.PrunedTables | core/src/email/threading.rs:438-459 | pruning keeps exactly the live messages, their threads and the IDs filed under those, unchanged, and does not free thread ids |
| ThreadHistory.ReassignIdempotentIff | core/src/email/threading.rs:120-123 | after any history, processing a filed message again with the headers it was last filed with changes nothing in any table if and only if it carries a Message-ID |
| ThreadHistory.AnonymousMoves | core/src/email/threading.rs:182-188 | after any history, a message without Message-ID processed twice is in another thread the second time |
| ThreadGroups.FirstNonBlankMeaning | core/src/email/threading.rs:167-177 | filling blank labels one merged thread after the other leaves the first label of the sequence that is not empty |
| ThreadGroups.NewestIsMaximum | core/src/email/threading.rs:173-174 | taking the larger activity thread by thread ends with a member of the sequence that none exceeds |
| ThreadGroups.MergedIsNewest | core/src/email/threading.rs:205-213 | after an assignment the thread is at least as recent as the message and every thread merged into it |
| ThreadGroups.MergedHasLabel | core/src/email/threading.rs:167-177 | a merge has a label if the new message has a subject or one of the threads merged has a label |
| ThreadGroups.AllBlank | core/src/email/threading.rs:167-177 | if all labels are empty the merged label is empty |
| ThreadGroups.FiledUnderOldest | core/src/email/threading.rs:136-197 | a message and its IDs are filed under the oldest thread that one of the IDs belongs to |
| ThreadGroups.FiledUnderNew | core/src/email/threading.rs:182-197 | if none belongs to a thread, under a new one with the subject and time of the message |
| ThreadGroups.LabelIsOldest | core/src/email/threading.rs:167-177 | the thread is labelled as the oldest linked thread that has a label |
| ThreadGroups.LabelIsSubject | core/src/email/threading.rs:205-213 | it takes the subject of the message if no linked thread has a label |
| ThreadGroups.RecencyIsLatest | core/src/email/threading.rs:173-213 | its recency is the latest of the message and the linked threads, and is that of one of them |
| ThreadGroups.OthersKeepTheirRows | core/src/email/threading.rs:156-181 | threads that are not linked keep their rows, and of the linked ones only the survivor stays |
| ThreadStore.LinkedIds | core/src/email/threading.rs:105-117 | the linked IDs are the non-empty own, referenced and replied-to IDs, each once |
| ThreadStore.ThreadTables.Existing | core/src/email/threading.rs:136-150 | finds exactly the threads the linked IDs are filed under, each once |
| ThreadStore.ThreadTables.MergeLoser | core/src/email/threading.rs:158-179 | moves every row of one thread to the survivor, fills a blank label, carries over recency |
| ThreadStore.ThreadTables.MergeAll | core/src/email/threading.rs:156-181 | the survivor takes over all rows, the first non-blank label and the newest activity of the threads merged |
| ThreadStore.ThreadTables.FindOrMerge | core/src/email/threading.rs:136-189 | yields the oldest existing thread with the others merged into it, or a new thread with a fresh id |
| ThreadStore.ThreadTables.Assign | core/src/email/threading.rs:124-218 | the new tables are the assignment step of the old ones, and the returned thread is the oldest one linked or a fresh one |
| ThreadStore.ThreadTables.Prune | core/src/email/threading.rs:438-459 | drops dead messages, then threads without messages, then references to dropped threads |
| ThreadTree.ParentIsNearest | core/src/email/threading.rs:353-375 | the parent of a row is p if and only if some candidate is first carried by row p, p is older, and no later candidate is first carried by an older row; there is none if and only if no candidate is |
| ThreadTree.Holder | core/src/email/threading.rs:338-345 | the first row carrying a Message-ID, none exactly for the empty ID or if no row does |
| ThreadTree.KidsComplete | core/src/email/threading.rs:377-384 | every reply of a message, and every root, occurs among the collected ones |
| ThreadTree.SubtreeLists | core/src/email/threading.rs:392-429 | the preorder of a message's subtree names a message once if it descends from it and not at all otherwise |
| ThreadTree.ForestLists | core/src/email/threading.rs:377-390 | the preorder of the subtrees of siblings names a message once if it descends from one of them and not at all otherwise |
| ThreadTree.SubtreeDepths | cli/src/main.rs:580-593 | every row of a listed subtree carries its number of ancestors, saturated |
| ThreadTree.DescendsLinear | core/src/email/threading.rs:353-375 | the messages that one descends from form a chain |
| ThreadTree.SiblingsApart | core/src/email/threading.rs:353-375 | two replies to one message, or two roots, have no common descendant |
| ThreadTree.ListingIsComplete | core/src/email/threading.rs:310-315 | the listing of the reply forest names each message of the thread exactly once, nothing else, each at its distance to its root |
| ThreadTree.ListingOrder | cli/src/main.rs:577-593 | the listing shows every message before all that descends from it, and of two replies to one message, or two roots, the older with its descendants before the newer |
| ThreadTree.ShownFirstTotal | cli/src/main.rs:577-593 | any two messages are in that order one way or the other, so it determines the listing |
| ThreadTree.DepthCountsAncestors | cli/src/main.rs:580-593 | the depth of a message is the number of messages it descends from |
| ThreadTree.IndexMids | core/src/email/threading.rs:338-345 | resolves a Message-ID to the oldest message carrying it |
| ThreadTree.IndexOrder | core/src/email/threading.rs:347-351 | maps each message to its place in the thread |
| ThreadTree.FindParent | core/src/email/threading.rs:357-375 | computes the nearest older ancestor by walking the candidates from the end |
| ThreadTree.FindParents | core/src/email/threading.rs:353-375 | the parent map holds exactly the nearest older ancestors |
| ThreadTree.RepliesAreKids | core/src/email/threading.rs:377-384 | the replies filed under an id are the children of its row, in order |
| ThreadTree.FileOne | core/src/email/threading.rs:379-384 | filing one more message keeps children and roots complete for the rows so far |
| ThreadTree.Distribute | core/src/email/threading.rs:377-384 | files every message once, under its parent in order or among the roots |
| ThreadTree.Turn | core/src/email/threading.rs:405-423 | one step of the stack machine keeps what the stack will build and reduces the work left |
| ThreadTree.ExpandEnter | core/src/email/threading.rs:407-415 | replacing a visit by its exit and the visits of its replies keeps what the stack builds, with less work left |
| ThreadTree.SubtreeUnfolds | core/src/email/threading.rs:392-429 | a subtree is a node over the subtrees of its filed replies |
| ThreadTree.PushReversed | core/src/email/threading.rs:407-415 | pushing replies in reverse puts the first on top |
| ThreadTree.BuildNode | core/src/email/threading.rs:392-429 | the iterative construction terminates with the recursively defined subtree |
| ThreadTree.Tree | core/src/email/threading.rs:316-390 | the result is the recursively defined reply forest |
| ThreadTree.Flatten | cli/src/main.rs:577-593 | the explicit stack yields the recursive preorder with saturating depths |
| ThreadTree.PushNodes | cli/src/main.rs:580-593 | pushing nodes in reverse puts their preorder in front of what remains to be listed |
| Conversations.ListsTheConversation | cli/src/main.rs:571-599 | for any history, the listing for a message names exactly the live messages connected to it, each once |
| Conversations.ListThread | cli/src/main.rs:575-593 | composes building and flattening of the forest of the given rows |
| Calls.EveryDeviceSound | core/src/calls.rs:118-190 | in every run each device keeps canceled ⇒ ended at that moment and never accepted, shows the end at most once, and a completed call lasts at least a second |
| Calls.StateMeaning | core/src/calls.rs:572-616 | for every record and time, exactly when each state is displayed, 120 seconds of ringing included, and the duration of a completed call |
| Calls.RingSeconds | core/src/calls.rs:76-85 | the seconds left to ring, between 0 and 120 |
| Calls.ActionShows | core/src/calls.rs:230-496 | what every action makes a device display from then on, whatever the time, with the duration of a talk it ends; an ended device ignores all |
| Calls.ActionTells | core/src/calls.rs:230-315 | a pick-up or hang-up whose message can be queued is told to the other devices, and nothing else is |
| Calls.TalkCompletes | core/src/calls.rs:273-496 | in every run, a talk ended by the user or by a delivered hang-up stays displayed as completed with its duration, whatever follows |
| Calls.EventsTellStory | core/src/calls.rs:230-496 | in every run a device has shown exactly: acceptance once and by whom, then the end once, except its own actions whose message could not be queued |
| Calls.RunKeepsInv | core/src/calls.rs:195-496 | every run of pick-ups, hang-ups, timeouts and deliveries keeps devices sound, every acceptance, end and message explained by a user action or a timeout, and every device that received a hang-up ended |
| Calls.OperateKeepsSound | core/src/calls.rs:231-496 | whatever one device does keeps it sound |
| Calls.OperateExtends | core/src/calls.rs:118-169 | no operation rewrites a timestamp, and none changes anything after the end |
| Calls.ApplyKeepsPackets | core/src/calls.rs:195-315 | every message in transit was sent because a user of that side picked up or ended the call |
| Calls.EndIsFinal | core/src/calls.rs:575-616 | in every run no timestamp is rewritten, and once a device has ended no step and no passage of time changes its record, events or displayed state |
| Calls.TalkNeedsPickup | core/src/calls.rs:231-271 | any device in an active or completed call implies a callee device whose user picked up and whose own record shows the call as active or completed at any time |
| Calls.SingleCalleeAgrees | core/src/calls.rs:415-445 | with one callee device, a caller in a call is in a call with it |
| Calls.LabelsAreEarned | core/src/calls.rs:534-570 | an ended call shows declined, canceled or missed only if the side the label names ended it or it rang out |
| Calls.DeliveredEndSettles | core/src/calls.rs:446-491 | once every device either ended the call itself or received a hang-up message all are ended, and no run of what happens to them later changes anything or sends anything |
| Calls.HangupEndsCall | core/src/calls.rs:273-315 | after any run, one hang-up message delivered to the devices that did not end the call themselves, in any order and with repetitions, is heard by them and leaves every device ended |
| Calls.EndedStandsStill | core/src/calls.rs:446-491 | between ended devices no run changes a record or sends a message |
| Calls.MissedIsFinalIff | core/src/calls.rs:593-596 | a call displayed as missed can still be picked up if and only if it is not flagged as ended |
| Calls.MissedCallTaken | core/src/calls.rs:230-271 | a call shown as missed after two minutes becomes active when it is picked up |
| Calls.CallMessage.constructor | core/src/calls.rs:195-228 | a new call has no timestamps and no events |
| Calls.AcceptingIsSound | core/src/calls.rs:118-124 | marking a device that has not ended as accepted, and showing it, keeps it sound |
| Calls.EndingIsSound | core/src/calls.rs:150-169 | marking a device that has not ended as ended, or one that is not accepted as canceled, and showing the end, keeps it sound: canceled means ended at that moment and never accepted, and the end is shown once |
| Calls.CallMessage.AcceptIncomingCall | core/src/calls.rs:231-271 | accepts an incoming call that is neither accepted nor ended, fails on outgoing ones |
| Calls.CallMessage.EndCall | core/src/calls.rs:273-315 | cancels, declines or ends depending on direction and acceptance, once |
| Calls.CallMessage.EmitEndCallIfUnaccepted | core/src/calls.rs:317-348 | ends a call that rang out unless it was accepted or ended |
| Calls.CallMessage.HandleCallMsg | core/src/calls.rs:414-496 | applies an acceptance or hang-up message depending on direction, acceptance and sender |
| Membership.TableRefinesSet | core/src/chat.rs:3860-3974 | for any non-negative timestamps in any order, each chat's members are those of a plain set under the same adds, removes, updates and erasures |
| Membership.RefinesIff | core/src/chat.rs:3880-3925 | one operation does to the member set what it means if and only if no contact without a row is added exactly once with a stamp before the epoch |
| Membership.UpdateReplaces | core/src/chat.rs:3860-3899 | after an update the members are the given contacts, except new ones stamped before the epoch |
| Membership.UpdatedRow | core/src/chat.rs:3860-3899 | the row of any key after an update, new rows with the timestamp and 0 |
| Membership.RemovedRow | core/src/chat.rs:3927-3948 | the row of any key after a removal |
| Membership.AddInserts | core/src/chat.rs:3901-3925 | after an addition the members are the old ones and the added ones, except exactly those born removed |
| Membership.AddedRow | core/src/chat.rs:3901-3925 | the row of a contact after an addition, by how often the list names it and whether it had a row |
| Membership.BornRemovedExample | core/src/chat.rs:3901-3925 | added once before the epoch a contact is no member, added twice in one call it is |
| Membership.OtherChatsUntouched | core/src/chat.rs:3873-3947 | an operation on one chat leaves the members of all others alone |
| Membership.QueriesAgree | core/src/chat.rs:3613-3658 | the member list holds exactly the members, the past-member list exactly the former members removed within sixty days, and the two are disjoint |
| Membership.TimestampsNeverDecrease | core/src/chat.rs:3870-3891 | while the clock does not run backwards no timestamp of a surviving row ever decreases |
| Membership.RowStaysTimely | core/src/chat.rs:3870-3942 | while the clock does not run backwards one operation decreases neither timestamp of a surviving row and leaves each bounded by the other, plus at most a second, or by the clock |
| Membership.DriftIsBounded | core/src/chat.rs:3873-3942 | with any clock, stored times exceed the largest time used by at most one second per removal or update |
| Membership.MovesBackIff | core/src/chat.rs:3860-3948 | with any clock, for each operation exactly when it moves a timestamp of a surviving row back |
| Membership.MovesBackExample | core/src/chat.rs:3901-3948 | a removal and an addition that move a stored time back |
| Membership.ChatsContacts.UpdateChatContactsTable | core/src/chat.rs:3861-3899 | bumps every row of the chat and re-adds the given contacts, in any iteration order |
| Membership.ChatsContacts.AddToChatContactsTable | core/src/chat.rs:3901-3925 | inserts or re-adds the given contacts one after the other |
| Membership.ChatsContacts.RemoveFromChatContactsTable | core/src/chat.rs:3927-3948 | moves the removal time of an existing row past its addition and reports whether there was one |
| Membership.ChatsContacts.RemoveWithoutTrace | core/src/chat.rs:3950-3974 | deletes the row and reports whether there was one |
| Messages.QueuedListedInSendOrder | core/src/chat.rs:3014-3040 | in every run of sends, drafts sent, resends, arrivals, state changes and deletions, with any clock, queued messages of a chat that no draft sent later has overtaken sort in send order |
| Messages.RunKeepsInv | core/src/chat.rs:3014-3040 | in every run each queued message stays sorted at or after every counting message of its chat with a smaller id |
| Messages.StepKeepsInv | core/src/chat.rs:3014-3040 | one send, draft sent, resend, arrival, state change or deletion keeps every queued message that is not overtaken at the bottom of what precedes it |
| Messages.BottomIsMaximum | core/src/chat.rs:3014-3040 | the maximum timestamp of the counting messages of the chat up to an id, none exactly if there are none |
| Messages.QueueReachesBottom | core/src/chat.rs:3014-3040 | queuing sorts a message at or after all counting messages with smaller ids and changes only its timestamp |
| Messages.QueueKeepsBottom | core/src/chat.rs:3014-3040 | queuing one message leaves every other one that is at the bottom of what precedes it there |
| Messages.ResendKeepsPlace | core/src/chat.rs:4836-4861 | resending a queued message leaves its sort position alone |
| Messages.SentDraftLastIff | core/src/chat.rs:2722-2732 | in any table, a sent draft ends up last in its chat if and only if no message with a larger id is stamped past it and everything before it |
| Messages.SentDraftNotLast | core/src/chat.rs:2722-2732 | a draft sent while a message that arrived later is stamped in the future is not last |
| Messages.SentDraftTimestamp | core/src/chat.rs:2744-2753 | a sent draft is stamped with the clock or with the latest message before it, whichever is later, and nothing else changes |
| Messages.ReferencesAreShort | core/src/chat.rs:1850-1867 | for any parent one to three pieces result, the parent's Message-ID among them, and splitting the header gives back exactly these pieces if that id has no space |
| Messages.ReferencesNameRecent | core/src/chat.rs:1812-1864 | the header is made of the last two of the parent's references, or of its `In-Reply-To` if it has none, and of the parent unless it is among them |
| Messages.ReferencesEmptyIff | core/src/chat.rs:1852-1867 | with a parent, the header is empty if and only if the parent has no Message-ID, `References` or `In-Reply-To` |
| Messages.EmptyReferencesExample | core/src/chat.rs:1852-1867 | a run in which a reply to mail without Message-ID gets an empty header |
| Messages.ConversationReferences | core/src/chat.rs:1809-1875 | in a conversation of any length, with any clock, message k replies to message k-1 and names exactly its min(k, 3) predecessors in order, and the first names itself and replies to none (section 3.6.4 of RFC 5322) |
| Messages.ParentIsNewest | core/src/chat.rs:1141-1174 | no eligible message is later than the parent, ties going to the larger id, and there is no parent only if none is eligible |
| Messages.ChainContinues | core/src/chat.rs:1850-1867 | replying to message k-1 of a chain gives the header of message k |
| Messages.SendContinuesChain | core/src/chat.rs:1766-1875 | sending the next message of a conversation extends the chain by one, whatever the clock says |
| Messages.LastSentIsParent | core/src/chat.rs:1141-1174 | in a conversation the parent of the next message is the last one sent, even if the clock ran backwards |
| Messages.TakeLastTwo | core/src/chat.rs:1850-1853 | takes the last two space-separated pieces in order |
| Messages.BuildReferences | core/src/chat.rs:1812-1875 | builds the header from the parent's headers, or from the own id for a first message |
| Messages.MsgsTable.ParentQuery | core/src/chat.rs:1141-1193 | finds the newest eligible message of the chat, ties going to the larger id |
| Messages.MsgsTable.PrepareMsgRaw | core/src/chat.rs:1766-2024 | stores the pending message with headers derived from its parent, under a fresh id or in the row of the draft it was |
| Messages.PreparedReplies | core/src/chat.rs:1809-1847 | `In-Reply-To` is what was set by hand, else outside self-talk the Message-ID of the newest answerable message by time and id, else empty |
| Messages.PreparedRefers | core/src/chat.rs:1812-1875 | `References` is empty in self-talk, the own id for a first message, and else made of the pieces for the newest answerable message |
| Messages.SendStores | core/src/chat.rs:1766-2024 | the whole row stored by a send for every outcome of its submission, and that no other row changes |
| Messages.SendStamps | core/src/chat.rs:3014-3040 | a queued message is stamped with the clock or the latest placed message of the chat, whichever is later |
| Messages.DraftStores | core/src/chat.rs:1939-1974 | the whole row stored by sending a draft, under its old id, and that no other row changes |
| Messages.DraftOvertakes | core/src/chat.rs:2722-2732 | sending a draft can overtake only messages of its chat with larger ids |
| Messages.MsgsTable.CreateSendMsgJobs | core/src/chat.rs:2852-3040 | gives a message that is queued the largest timestamp among the counting messages of its chat up to its id; a failed, refused or empty submission leaves the place alone |
| Messages.SubmitStores | core/src/chat.rs:2892-3040 | a submission without recipients leaves the message delivered, a failed one failed, others pending; only queuing changes its time |
| Messages.MsgsTable.SendMsg | core/src/chat.rs:2744-2755 | prepares and queues a message as one step of the run model |
| Messages.MsgsTable.SendDraftMsg | core/src/chat.rs:2722-2755 | sends a stored draft as one step of the run model |
| Messages.MsgsTable.LoadOwn | core/src/chat.rs:4824-4834 | succeeds exactly if all messages exist, are the user's own and are not info messages |
| Messages.MsgsTable.ResendOne | core/src/chat.rs:4836-4861 | resends one message as one step of the run model |
| Messages.ResendStores | core/src/chat.rs:4836-4861 | what a resend changes: the state, and the time when it is queued |
| Messages.ResendRefuses | core/src/chat.rs:4826-4850 | a message that is foreign, an info message, or neither pending, failed nor delivered is not resent |
| Messages.MsgsTable.ResendLoaded | core/src/chat.rs:4836-4861 | resends loaded messages in order and says why it stopped early: a wrong state when loaded, or a failed submission |
| Messages.MsgsTable.ResendMsgs | core/src/chat.rs:4819-4861 | resends nothing if one message is missing, foreign or an info message; otherwise resends in order up to the first in a wrong state or whose submission fails |
| Messages.ResentIsRun | core/src/chat.rs:4836-4861 | a batch is a run of single resends, so what every run keeps holds for it |
| Messages.ResentKeepsChoice | core/src/chat.rs:4836-4850 | the states loaded before a batch tell throughout it which messages can be resent |
| Listing.MarkedIsWellMarked | core/src/chat.rs:3279-3297 | every message stands under the marker of its day or, in day 0, above all markers; each marker is directly followed by a message; markers strictly increase |
| Listing.NearestIsLastDay | core/src/chat.rs:3279-3292 | the last marker shown is that of the last day seen, and there is none only while that day is 0 |
| Listing.MarkersAscend | core/src/chat.rs:3279-3292 | one more message keeps the markers strictly increasing |
| Listing.SortedQuery | core/src/chat.rs:3268-3277 | sorting the rows of a chat gives the same rows in strictly increasing order |
| Listing.ErasedIsSorted | core/src/chat.rs:3283-3296 | without markers the list is the sorted messages |
| Listing.InWindowIff | core/src/chat.rs:3285-3292 | a message lies in the 86400 seconds from its marker if and only if its local time is not negative or is a midnight |
| Listing.BeforeEpochOutside | core/src/chat.rs:3285-3292 | two messages before 1970, one above all markers and one a second before its own |
| Listing.SortIsSorted | core/src/chat.rs:3268-3277 | the rows are sorted strictly by time and id, none lost and none added |
| Listing.ChatShowsSendOrder | core/src/chat.rs:3251-3298 | after any run the list of a chat, with day markers or without, shows queued messages in send order |
| Listing.MarkedKeepsOrder | core/src/chat.rs:3279-3297 | markers do not disturb the order of the messages |
| Listing.GetChatMsgs | core/src/chat.rs:3267-3298 | the loop computes the sorted list, with markers if asked for |
| Noticing.MarkOldMessagesAsNoticed | core/src/chat.rs:3436-3486 | in any iteration order, exactly the fresh visible messages at or before some outgoing message of the batch become noticed, and the chats reported are exactly those that changed |
| Noticing.LatestByChat | core/src/chat.rs:3444-3459 | keeps for each chat the largest sort time of its outgoing messages |
| Noticing.LatestIsTheRule | core/src/chat.rs:3461-3486 | one maximum per chat has the effect of the rule over all messages of the batch |
| Noticing.OutdatedByLatest | core/src/chat.rs:3449-3459 | a message is at or before some outgoing message of the batch exactly if it is at or before the maximum of its chat |
| Noticing.NoticeOneMore | core/src/chat.rs:3461-3486 | updating one more chat extends the effect by that chat, and rows were affected exactly if the chat is to be reported |
| Noticing.BatchOrderIrrelevant | core/src/chat.rs:3449-3459 | the effect does not depend on order or repetition in the batch |
| Accounts.EveryRunSound | core/src/accounts.rs:703-773 | from any sound start, with writes failing or power lost anywhere, memory and every file that may be found keep distinct ids below the counter and a valid selection, and the ids returned strictly increase |
| Accounts.StepKeepsInv | core/src/accounts.rs:157-347 | one operation, failing or stopping at any point, keeps memory and every file that may be found sound |
| Accounts.ReturnedOnlyGrows | core/src/accounts.rs:810-838 | no step takes back an id already returned |
| Accounts.AddedIsDurable | core/src/accounts.rs:724-742 | an account reported as added is found again after any run that does not remove it and any stop, power loss included, and is selected right after |
| Accounts.RemovedForGood | core/src/accounts.rs:840-863 | an account reported as removed is in no later state of memory or disk, whatever fails or stops |
| Accounts.RemovalForgetsOne | core/src/accounts.rs:840-863 | removing an account forgets it and nothing else; the selection moves only if it was selected, to the first account left or to none; the file written says the same |
| Accounts.RemovalSelectsOldest | core/src/accounts.rs:851-859 | after any run from a new configuration, removing the selected account selects the oldest one left |
| Accounts.FailedRemovalRemembers | core/src/accounts.rs:199-232 | an account whose files could not be erased is closed but remembered |
| Accounts.ClosedNotRemoved | core/src/accounts.rs:199-206 | an account that is not open is not removed |
| Accounts.AdditionAppends | core/src/accounts.rs:808-838 | the whole configuration after an addition, found again on starting |
| Accounts.ReturnedIff | core/src/accounts.rs:157-179 | an id is returned and its account open if and only if both writes complete and it can be opened |
| Accounts.StoppedWaits | core/src/accounts.rs:703-745 | after a stop nothing happens until the manager is started again |
| Accounts.RestartFinds | core/src/accounts.rs:747-806 | which file is found on starting again, and which a later power loss may still leave |
| Accounts.RunListed | core/src/accounts.rs:808-863 | in every run memory and files list accounts in the order of their creation |
| Accounts.SelectionIsKept | core/src/accounts.rs:875-888 | a selection is what is selected, also after starting again, and changes nothing else |
| Accounts.SelectionStays | core/src/accounts.rs:840-888 | in every run the selection changes only by adding, selecting, removing the selected account or starting again |
| Accounts.OrderIsShown | core/src/accounts.rs:322-347 | after setting an order its first mentions of open accounts are displayed, then the others |
| Accounts.OrderIsKept | core/src/accounts.rs:322-347 | setting an order changes nothing else, and it is found on starting again |
| Accounts.AddedAccountLastIff | core/src/accounts.rs:823-824 | a new account is listed last if and only if the order lists all open accounts |
| Accounts.AddedAccountNotLast | core/src/accounts.rs:823-824 | a run after which the next account is not listed last |
| Accounts.AddedToOldFileNotLast | core/src/accounts.rs:595-608 | the same for a file with accounts and no order |
| Accounts.NothingSelectedIff | core/src/accounts.rs:829-833 | for any state before an addition, any way its two writes end and any file found on starting again, power loss included: when exactly memory, and the file found, have accounts but none selected |
| Accounts.AddPicksIff | core/src/accounts.rs:808-838 | an addition keeps an account selected whenever there is one, in memory and in every file that may be found, if and only if both its writes complete or something was selected before |
| Accounts.StepPicks | core/src/accounts.rs:840-888 | removing, selecting, ordering and restarting, failing at any point, keep an account selected whenever there is one |
| Accounts.RunPicks | core/src/accounts.rs:808-888 | in every run in which no addition made while nothing is selected is cut short, memory and every file that may be found select an account whenever there is one |
| Accounts.NothingSelectedRuns | core/src/accounts.rs:829-833 | three runs that end with accounts and none selected: in memory, after a restart, after a power loss |
| Accounts.AccountManager.constructor | core/src/accounts.rs:668-692 | a new configuration is empty, written to disk and sound |
| Accounts.AccountManager.SyncConfig | core/src/accounts.rs:703-745 | which contents the file may turn out to have, by how far the write got: a complete one leaves a single possibility, one that fails after the rename adds one |
| Accounts.AccountManager.Add | core/src/accounts.rs:157-197 | creates and selects an account under a fresh id, which is returned only if every part worked |
| Accounts.AccountManager.Remove | core/src/accounts.rs:199-232 | closes, erases and forgets an account, moving the selection |
| Accounts.AccountManager.Select | core/src/accounts.rs:875-888 | selects an existing account, fails on others |
| Accounts.AccountManager.SetDisplayOrder | core/src/accounts.rs:322-347 | stores the filtered order |
| Accounts.AccountManager.Start | core/src/accounts.rs:747-806 | loads the configuration found on disk and all its accounts |
| AccountOrder.AllIdsIsPermutation | core/src/accounts.rs:302-320 | every account is listed exactly once |
| AccountOrder.KeptFollowsOrder | core/src/accounts.rs:307-312 | listed accounts come in the order of their first mention |
| AccountOrder.SetThenGet | core/src/accounts.rs:322-347 | after setting an order the list is its first mentions of existing accounts, then the rest ascending |
| AccountOrder.SetDisplayedOrder | core/src/accounts.rs:303-347 | setting the order to what is displayed changes nothing displayed |
| AccountOrder.RemovalKeepsOrder | core/src/accounts.rs:841-849 | removing an account keeps the others in their relative order |
| AccountOrder.AdditionGoesLastIff | core/src/accounts.rs:823-824 | an id appended to the order is displayed last if and only if no account is unlisted |
| AccountOrder.AdditionPlace | core/src/accounts.rs:823-824 | a new account is displayed after the listed accounts and before the unlisted ones |
| AccountOrder.NewOrderListsAll | core/src/accounts.rs:327-341 | after setting an order no account is unlisted |
| AccountOrder.FilterExisting | core/src/accounts.rs:330-334 | keeps the ids that exist, in order |
| AccountOrder.GetAll | core/src/accounts.rs:303-320 | the loops compute first mentions followed by the unlisted accounts ascending |
| AccountOrder.SetAccountsOrder | core/src/accounts.rs:327-341 | the loops compute the existing ids of the list followed by the missing ones ascending |
| BackgroundFetch.OneUninterrupted | core/src/accounts.rs:437-524 | in every run an active fetch owns the slot or is told to stop, at most one is neither, and the slot belongs to an active fetch if futures are driven to completion |
| BackgroundFetch.RunKeepsInv | core/src/accounts.rs:437-524 | every run keeps: active fetches own the slot or are told to stop, and each phase fits the number of announcements |
| BackgroundFetch.NoStopRun | core/src/accounts.rs:437-510 | runs without stop requests keep every active fetch the owner of the slot, even if futures are dropped |
| BackgroundFetch.DoneExactlyOnce | core/src/accounts.rs:424-470 | a finished fetch announced it exactly once, a rejected one never |
| BackgroundFetch.BecomesReadyIff | core/src/accounts.rs:469-524 | an undisturbed fetch is told to stop exactly by a stop request or by another fetch clearing the slot |
| BackgroundFetch.NoStopNoInterruption | core/src/accounts.rs:492-502 | without stop requests an active fetch owns the slot and is never told to stop |
| BackgroundFetch.InterruptedByPredecessor | core/src/accounts.rs:469-469 | a run in which a fetch is told to stop by its stopped predecessor |
| BackgroundFetch.AbandonedOwnerBlocks | core/src/accounts.rs:433-436 | while the slot is held and no fetch is active every new fetch is rejected, in all runs without a stop request, and a stop request ends it |
| BackgroundFetch.Fetcher.ClearSlot | core/src/accounts.rs:469-469 | empties the slot, which signals whoever owned it |
| BackgroundFetch.Fetcher.BackgroundFetch | core/src/accounts.rs:485-510 | accepts a fetch if and only if the slot is free |
| BackgroundFetch.Fetcher.StopBackgroundFetch | core/src/accounts.rs:512-524 | empties the slot and signals its owner |
| BackgroundFetch.Fetcher.EmitDone | core/src/accounts.rs:444-468 | announces the end of a fetch |
| BackgroundFetch.Fetcher.WindDown | core/src/accounts.rs:469-469 | empties the slot, whoever owns it |
| Autocrypt.RoundTripIff | core/src/aheader.rs:55-132 | a printed header is read back with lower-cased address, same key and preference, not verified, if and only if the address is trimmed and free of semicolons and the key verifies |
| Autocrypt.ParseMeaning | core/src/aheader.rs:86-131 | exactly when a header is valid, and what it then says, verified included, by the last value of each attribute |
| Autocrypt.PieceMeaning | core/src/aheader.rs:90-93 | a piece with `=` is an attribute with the trimmed text before the first one as key and the trimmed rest as value |
| Autocrypt.PieceWithoutEquals | core/src/aheader.rs:90-94 | a piece without `=` is none |
| Autocrypt.PrintedText | core/src/aheader.rs:56-82 | the text of a printed header |
| Autocrypt.AddressNotReadBack | core/src/aheader.rs:55-132 | an address with a semicolon or a space at its end is not read back, whatever the key |
| Autocrypt.StripFold | core/src/aheader.rs:67-80 | removing the inserted spaces gives back the key data |
| Autocrypt.FoldedLayout | core/src/aheader.rs:67-80 | the printed keydata attribute has a space at every 79th place and nowhere else |
| Autocrypt.EveryLineBreaks | core/src/aheader.rs:67-80 | any 79 consecutive characters of the keydata attribute contain a space, so lines can be folded at 78 (section 2.1.1 of RFC 5322) |
| Autocrypt.AttributeOrderIrrelevant | core/src/aheader.rs:87-96 | attributes with distinct keys may come in any order |
| Autocrypt.IgnoredPiece | core/src/aheader.rs:119-123 | underscore attributes other than `_verified`, and pieces without `=`, can be inserted or removed anywhere |
| Autocrypt.PaddedPiece | core/src/aheader.rs:90-92 | white space around an attribute does not matter |
| Autocrypt.LastValueCounts | core/src/aheader.rs:87-96 | a value followed by another one for the same key does not matter |
| Autocrypt.UnknownAttributeInvalid | core/src/aheader.rs:119-123 | any other unknown attribute makes the header invalid |
| Autocrypt.ParsedIsClean | core/src/aheader.rs:98-110 | a parsed header has a trimmed address without semicolon and a verified key |
| Autocrypt.ParseJoined | core/src/aheader.rs:87-89 | a header joined with semicolons is parsed as its pieces |
| Autocrypt.MapHoldsLast | core/src/aheader.rs:87-96 | the attribute map holds the last value given for each key |
| Autocrypt.SameMeaningSameResult | core/src/aheader.rs:97-131 | attributes that give the same last values, up to ignored keys, are interpreted alike |
| Autocrypt.TrimPadded | core/src/aheader.rs:90-92 | trimming forgets surrounding white space |
| Autocrypt.FromStr | core/src/aheader.rs:86-131 | collecting, removing known keys one by one and checking the rest computes the parse function |
| Autocrypt.Collect | core/src/aheader.rs:87-96 | the loop over the pieces collects the attribute map |
| Autocrypt.Display | core/src/aheader.rs:56-82 | the loop over the key data computes the folded header |
| Relays.HistorySpaced | core/src/automatic_relay_management.rs:42-78 | in every history with a clock that does not run backwards the gate is passed at most once an hour and no host is tried twice within a week |
| Relays.RoundIsOk | core/src/automatic_relay_management.rs:42-131 | one call tries at most three different hosts, all due and unused, stamps exactly those, adds exactly those that work, stays within the target of three, and does nothing when switched off, finished or within 3600 seconds of the last pass |
| Relays.TurnsAreOk | core/src/automatic_relay_management.rs:78-127 | any number of turns of the loop tries different due hosts, stamps exactly those and adds exactly those that work |
| Relays.RoundKeepsPasses | core/src/automatic_relay_management.rs:42-64 | one call keeps the passes of the gate an hour apart |
| Relays.RoundKeepsAttempts | core/src/automatic_relay_management.rs:78-127 | one call keeps the attempts at each host a week apart |
| Relays.StepSpaced | core/src/automatic_relay_management.rs:42-131 | one call, or one change by the user, keeps passes an hour and attempts a week apart |
| Relays.FinishedForGood | core/src/automatic_relay_management.rs:66-71 | once finished, no history tries another host |
| Relays.RelayManager.LoadRelayCandidates | core/src/automatic_relay_management.rs:133-155 | selects exactly the unused candidates not tried for a week of 604800 seconds, or stamped in the future |
| Relays.RelayManager.MaybeAddAdditionalRelays | core/src/automatic_relay_management.rs:42-131 | changes nothing with the lock held, switched off, finished or within 3600 seconds of the last pass; otherwise passes the gate, takes only allowed turns, and stops early only if finished or nothing is due |
| Recoding.AvatarFits | core/src/blob.rs:273-296 | with an encoder that never returns an empty file, an accepted avatar is within the byte limit and both side limits |
| Recoding.PhotoScaled | core/src/blob.rs:441-515 | a picture past the byte limit that is not an avatar is stored as the JPEG encoding of its thumbnail at the largest size within the resolution limit, its longest side and 65535, a multiple of eight where the limit reduces it; if that fails it becomes a plain file without Exif or an error |
| Recoding.PhotoFits | core/src/blob.rs:484-488 | with thumbnails that respect their square both sides are within that size |
| Recoding.FirstTargetIsLargest | core/src/blob.rs:441-469 | the first target is the largest size allowed |
| Recoding.AlignmentLost | core/src/blob.rs:466-469 | above 65535 pixels the target is not a multiple of eight |
| Recoding.AvatarScaled | core/src/blob.rs:441-515 | an avatar that does not fit is stored over its background at the largest size that fits, of those obtained from the smallest of limit, longest side and 65535 by taking seven eighths |
| Recoding.AvatarAccepted | core/src/blob.rs:419-515 | an avatar past a limit is accepted at the first size of the sequence that fits, whether or not it can be encoded unscaled |
| Recoding.ExifRecoded | core/src/blob.rs:517-538 | an image within its limits that carries Exif is stored at its size, PNG as PNG, avatars that are not JPEG on white |
| Recoding.FineImagePasses | core/src/blob.rs:419-439 | an image within its limits and without Exif passes as it is |
| Recoding.UnreadableFails | core/src/blob.rs:337-357 | what cannot be read is an error |
| Recoding.AvatarFitsIff | core/src/blob.rs:323-329 | an accepted avatar is within its limits if and only if not: it needs scaling, a target of the sequence encodes to nothing while all larger ones are too big, and the unscaled image is past a limit |
| Recoding.RecodedFitsIff | core/src/blob.rs:419-533 | the same for the recoding of any decoded picture |
| Recoding.LoopEndsEmptyIff | core/src/blob.rs:471-514 | the loop ends with no bytes if and only if some target encodes to nothing while all larger ones of the sequence are too big |
| Recoding.ScaledFits | core/src/blob.rs:471-514 | what the loop ends with is an encoding of a picture within the byte limit and both side limits |
| Recoding.ScaleDownEncodes | core/src/blob.rs:471-514 | the bytes the loop ends with are the encoding of its picture |
| Recoding.ScaleDownFindsLargest | core/src/blob.rs:471-514 | the loop ends with the largest target of its sequence that fits, or fails because encoding failed or the smallest was too big |
| Recoding.OriginalKeptIff | core/src/blob.rs:419-439 | an image accepted as image or sticker keeps its bytes exactly if it was passed as a file, is a transparent sticker, or has no Exif and is within the limits; otherwise the bytes are an encoding of the stored picture |
| Recoding.ExifKept | core/src/blob.rs:372-398 | an image with Exif passes unchanged as a plain file and as a transparent sticker |
| Recoding.FallbackIsPlain | core/src/blob.rs:542-556 | apart from avatars a readable image without Exif is always accepted, and only such an image falls back to an unchanged plain file |
| Recoding.EmptyEncodingBreaksLimit | core/src/blob.rs:528-533 | an encoder without output leads to an avatar past its limit |
| Recoding.AlignToEight | core/src/blob.rs:454-460 | rounds a reducing resolution down to a multiple of eight |
| Recoding.ScaleLoop | core/src/blob.rs:471-514 | the loop terminates and computes the scaling function |
| Recoding.RecodeImage | core/src/blob.rs:401-540 | the in-place decisions on background, format, scaling and writing, which may fail, compute the recoding function |
| Recoding.CheckOrRecodeToSize | core/src/blob.rs:337-557 | early returns for files and stickers and the fallback on errors |

## Left out

- Receiving mail, IMAP, SMTP, JSON-RPC, the desktop client and the FFI: input and output around the modelled parts.
- OpenPGP, base64, image codecs, TOML and SQLite: functions given as arguments, or maps.
- `parse_message_ids`: threading starts from the parsed Message-IDs.
- 32-bit and 64-bit overflow of ids and timestamps: ids and times are unbounded, except for the saturating depth of the thread listing.
- Unicode case mapping of the Autocrypt address: any function that keeps white space at the ends and semicolons where they are.
- Order of the member lists by last-seen time: members and past members are sets.
- Who may ring, call texts and ICE servers: they do not affect the state of a call. Ring timers may fire at any time and any number of times, which includes the source's.
- The call message itself: a device simply begins to hold the call, with no timestamps.
- Directory names and UUIDs of accounts, the lock file, migration of accounts: ids, order and selection are what is modelled.
- The floating-point resolution limit for images that are not avatars: an arbitrary number.
- File names of recoded images: not modelled.
- Legacy stored state `OutMdnRcvd`: the message table has only the states written today.
- Changes of chat or timestamp of stored messages by reception: the run model has arrivals, state changes and deletions.
- Messages.QueuedListedInSendOrder: says nothing of messages that a draft with a smaller id, sent after them, has overtaken, because their order is not guaranteed (see Messages.SentDraftLastIff).
- Relays.HistorySpaced: assumes that nobody rewrites the candidate table, and hosts in lower case as shipped.
- Recoding.AvatarFits: assumes that scaling stays within the requested square and that no encoding is empty; Recoding.AvatarFitsIff needs only the former.
