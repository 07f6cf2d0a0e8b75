# Thread page realtime handler and sub-comment state, in Dafny

This project models two decision layers of the talkink discussion client.

- **The thread page** (`src/pages/Thread/index.tsx`) subscribes to the realtime "Comments" stream. For each message `{event, payload}` its handler does three things:
  - it decides whether the message belongs to the open thread, reading the pre-update snapshot for `UPDATE_RECORD`;
  - it decides whether to look up the author, and under which id;
  - it dispatches at most one store action: `addComment`, `updateComment` (the `after` snapshot spread over `before`), or `deleteComment`.

  "The open thread" here means the thread id captured when the subscription was opened, once per mount of the page.

  When a thread is opened, the page also marks it read for the viewer (`updateReadedThreads`).
- **A sub-comment** (`src/components/Comment/SubComment.tsx`) keeps an `isEdit` flag and an editor document. It shares a one-shot mobile-menu command slot with other components. It issues delete and update calls to the sub-comment service and dispatches store actions when those calls succeed.

Files:
- `wrappers.dfy`: the `Option` type.
- `json.dfy`: the JavaScript values carried by payloads and replies, and three operations on them:
  - property access, which throws on `undefined` and `null`;
  - `?.[0]`;
  - object spread.
- `thread_page.dfy`: contains the following.
  - The handler as the pure function `Handle`. It takes the message, the open thread id and the author lookup's reply, and returns the lookup that was made (if any) and the outcome of the run: one action, nothing, or a rejected promise.
  - The stream of deliveries, as `Dispatched`.
  - Mark-read, as the method `UpdateReadedThreads`.
- `sub_comment.dfy`: the class `SubComment`, whose methods are the component's handlers and effects. It also has two client methods that walk through the long-press → menu → delete and "edit command consumed once" scenarios; the verifier checks their assertions against the method contracts.

Behaviours of the code worth knowing, which the model keeps:
- If the author lookup throws, the handler's promise rejects and the message is dropped. The event is not applied with an unresolved author. (When the lookup finds no user, the event is applied with `createdBy` undefined.)
- No create is made idempotent here; that would be reducer behaviour, and the reducers are not part of this model.
- A change of the stored content overwrites an edit in progress: the content effect reloads the editor even while `isEdit` is true (`ContentChanged`).
- The author lookup is made even for messages of other threads, because it happens before the membership test.
- A `link` reply that resolves counts as success, whatever it contains. The code does not inspect the reply.

## Model

| member | source | states |
|---|---|---|
| Json.Spread | src/pages/Thread/index.tsx:75-79 | `{...a, ...b}` has the keys of both; `b`'s values win, and `a`'s are kept elsewhere |
| ThreadPage.Handle | src/pages/Thread/index.tsx:40-94 | only a message of the open thread dispatches, and always for the open thread id; a lookup is made only for create and update, and always for them when the thread reference can be read; the run rejects exactly when reading the thread reference throws or the lookup that was made throws |
| ThreadPage.MembershipByThreadList | src/pages/Thread/index.tsx:42-45 | membership holds exactly when the snapshot's `threads` list has the open thread id first; a missing, empty or nullish list means "not current" |
| ThreadPage.UpdateMembershipUsesBefore | src/pages/Thread/index.tsx:42-56 | two updates with the same `before` agree on membership and on the lookup id, whatever their `after` |
| ThreadPage.OtherMembershipUsesPayload | src/pages/Thread/index.tsx:42-45 | for every event except updates, membership is read from the payload's own `threads` |
| ThreadPage.UpdateWithoutBeforeRejects | src/pages/Thread/index.tsx:42-44 | an update whose `before` is missing, `null` or `undefined` throws before any lookup or action |
| ThreadPage.ForeignMessageDispatchesNothing | src/pages/Thread/index.tsx:60 | a message of another thread dispatches nothing, whatever its kind and whatever the lookup returns |
| ThreadPage.LookupKeyChoice | src/pages/Thread/index.tsx:47-58 | creates look up `createdBy`; updates look up `before.createdBy`; deletes and unknown kinds make no lookup |
| ThreadPage.ResolvedAuthorIsFirstMatch | src/pages/Thread/index.tsx:47-82 | for a create or update of the open thread, the dispatched comment's `createdBy` is the first user the lookup returned, or undefined when it returned none or no list |
| ThreadPage.IsLookupEvent | src/pages/Thread/index.tsx:48 | definition of the create-or-update test; deletes never pass it; further specified by LookupKeyChoice and Handle |
| ThreadPage.Snapshot | src/pages/Thread/index.tsx:42-54 | definition of the record read for thread and author: the payload itself except for updates, whose `payload.before` read throws exactly on a nullish payload; further specified by UpdateMembershipUsesBefore and LookupKeyChoice |
| ThreadPage.ReplyIrrelevantWithoutLookup | src/pages/Thread/index.tsx:47-58 | without a lookup, the lookup reply cannot influence the run |
| ThreadPage.CreateAddsPayloadWithAuthor | src/pages/Thread/index.tsx:62-69 | a create adds one comment equal to the payload except that `createdBy` is the resolved author |
| ThreadPage.UpdateMergesAfterOverBefore | src/pages/Thread/index.tsx:71-82 | every update of the open thread dispatches one merged record: it takes `after`'s value for every field of `after` and keeps `before`'s value for every other field; an `after` that is missing, null or not a record adds nothing; `createdBy` is the resolved author |
| ThreadPage.DeleteRemovesById | src/pages/Thread/index.tsx:83-90 | a delete makes no lookup and dispatches `deleteComment` with the payload's `_id` |
| ThreadPage.UnknownEventDispatchesNothing | src/pages/Thread/index.tsx:91-92 | any other event kind makes no lookup and dispatches nothing |
| ThreadPage.MovedCommentIsUpdatedHere | src/pages/Thread/index.tsx:42-82 | any update whose `before` lists the open thread first and whose `after` carries a `threads` field dispatches `updateComment` for the open thread with `after`'s thread list |
| Json.Member | src/pages/Thread/index.tsx:44-45 | definition of property access; throws exactly on a nullish value, and reads `undefined` from non-record values; further specified by MembershipByThreadList and LookupKeyChoice |
| Json.OptionalFirst | src/pages/Thread/index.tsx:44-57 | definition of `?.[0]`; `undefined` for nullish values and empty lists, the first element of a non-empty list; further specified by ResolvedAuthorIsFirstMatch, which ties it to the dispatched `createdBy` |
| Json.OwnFields | src/pages/Thread/index.tsx:66-77 | definition of the fields a spread copies; none for non-records, every field of a record; further specified by Spread, CreateAddsPayloadWithAuthor and UpdateMergesAfterOverBefore |
| ThreadPage.IsCurrentThread | src/pages/Thread/index.tsx:42-45 | definition of `isCurrentThread`; it throws exactly when the payload is nullish, or for an update when `before` is nullish; further specified by MembershipByThreadList, UpdateMembershipUsesBefore and OtherMembershipUsesPayload |
| ThreadPage.LookupKey | src/pages/Thread/index.tsx:47-55 | definition of the lookup id; a lookup is made exactly for creates and updates whose thread reference can be read; further specified by LookupKeyChoice |
| ThreadPage.Emit | src/pages/Thread/index.tsx:60-93 | definition of the switch; it dispatches exactly for create, update and delete, always for the given thread id, and with the given author as `createdBy`; further specified by CreateAddsPayloadWithAuthor, UpdateMergesAfterOverBefore and DeleteRemovesById |
| ThreadPage.Dispatched | src/pages/Thread/index.tsx:39-95 | a stream of messages yields at most one action per message, each for the open thread |
| ThreadPage.OfThread | src/pages/Thread/index.tsx:60 | every kept delivery comes from the stream and belongs to the open thread, and every delivery of the open thread is kept |
| ThreadPage.ForeignMessagesAreInert | src/pages/Thread/index.tsx:39-95 | dropping other threads' messages from the stream leaves the dispatched actions unchanged |
| ThreadPage.DispatchedAppend | src/pages/Thread/index.tsx:39-95 | the actions for two consecutive stretches of the stream are those of each stretch, in order |
| ThreadPage.UpdateReadedThreads | src/pages/Thread/index.tsx:105-121 | a missing list counts as empty; an already-read thread issues no link and no update; otherwise the link is issued. After a successful link the list becomes the old list plus the thread id, which then occurs exactly once. A failed link updates nothing and shows a notice; with no signed-in user, the notice is shown and no link is made |
| ThreadPage.KnownReads | src/pages/Thread/index.tsx:107-110 | definition of the read list the page starts from; empty without a user or without a list; further specified by UpdateReadedThreads |
| SubCommentView.Succeeded | src/components/Comment/SubComment.tsx:86-110 | definition of `!error` on a reply; a thrown call never succeeds; further specified by Delete and Save |
| SubCommentView.IsCommandFor | src/components/Comment/SubComment.tsx:147-150 | definition of the effect's gate; the cleared slot and "open" commands never pass it; further specified by ResetIsNeverActedOn and MenuEffect |
| SubCommentView.ResetIsNeverActedOn | src/components/Comment/SubComment.tsx:147-157 | the cleared slot `{data: null, type: "close"}` is acted on by no sub-comment |
| SubCommentView.SubComment.constructor | src/components/Comment/SubComment.tsx:65-72 | starts outside edit mode, with the stored content loaded and nothing dispatched |
| SubCommentView.SubComment.ContentChanged | src/components/Comment/SubComment.tsx:74-78 | a changed, non-empty stored content is loaded into the editor; nothing else changes |
| SubCommentView.SubComment.EditorChanged | src/components/Comment/SubComment.tsx:67-72 | typing replaces the editor's document |
| SubCommentView.SubComment.MenuWritten | src/components/Comment/SubComment.tsx:61 | another component's write replaces the shared slot |
| SubCommentView.SubComment.LongPress | src/components/Comment/SubComment.tsx:131-144 | the "open"/"subComment" command is written only for the author and only while not editing; otherwise the slot and the action log are unchanged |
| SubCommentView.SubComment.IsAuthor | src/components/Comment/SubComment.tsx:133-199 | definition of the authorship test; a comment without an author never passes it; further specified by LongPress and HoverMenuShown |
| SubCommentView.SubComment.HoverMenuShown | src/components/Comment/SubComment.tsx:199 | definition of the hover menu's render gate; shown only for a comment with an author and only while not editing; it is the precondition of HoverEdit and HoverDelete |
| SubCommentView.SubComment.HoverEdit | src/components/Comment/SubComment.tsx:199-210 | the hover menu, shown only to the author while not editing, enters edit mode |
| SubCommentView.SubComment.HoverDelete | src/components/Comment/SubComment.tsx:199-215 | the hover menu's Delete item, available only to the author while not editing, runs the delete: one `deleteById` call, and the store action only on a reply without error |
| SubCommentView.SubComment.Delete | src/components/Comment/SubComment.tsx:80-100 | always calls `deleteById` for the sub-comment; dispatches `deleteSubCommentToComment{subCommentId, threadId, commentId = parentId}` only on a reply without error |
| SubCommentView.SubComment.Discard | src/components/Comment/SubComment.tsx:126-129 | the editor holds the stored content again and edit mode is off |
| SubCommentView.SubComment.Save | src/components/Comment/SubComment.tsx:102-124 | sends the editor's document. On a reply without error, dispatches `updateSubCommentToComment` with the server's data and leaves edit mode. On error or throw, changes nothing else |
| SubCommentView.SubComment.MenuEffect | src/components/Comment/SubComment.tsx:146-160 | acts only on a command aimed at this id whose type is neither "close" nor "open". "edit" sets `isEdit`, "delete" deletes, and every acted-on command clears the slot. The cleared slot is never acted on again |

## Left out

- Network I/O (the `find`, `link`, `updateById` and `deleteById` calls, and subscribe/unsubscribe) is not modelled. Their outcomes are inputs: `LookupReply`, the `linkRejects` flag and `ServiceReply`.
- Async interleaving is not modelled. `Dispatched` assumes each handler run finishes before the next begins. The real handlers can dispatch in a different order than the messages arrived.
- The subscription key set in `.then` is not modelled. It can race with the cleanup's `unsubscribe` (src/pages/Thread/index.tsx:96-100).
- The reducers (`addComment`, `updateComment`, `deleteComment`, `updateUser`, and the sub-comment ones) are not part of this model. Actions are recorded as values. For `setCommentMenu`, the model assumes it stores its payload in the slot.
- Json.OwnFields: spreading a string or an array, which copies their index keys, is not modelled; such values spread nothing here. Payload snapshots are records.
- Json.Member: prototype properties such as `length` are not modelled, so only the field names the core reads are meaningful.
- Json.OptionalFirst: a JavaScript string is indexed by UTF-16 code unit, but a Dafny `char` is a Unicode scalar value, so for characters outside the Basic Multilingual Plane `s?.[0]` here yields the whole character rather than half a surrogate pair.
- In Json.Value, JavaScript numbers are integers and objects are compared by value. The core only compares strings.
- The open thread id is a string, because the thread route always supplies it.
- ThreadPage.Handle: `threadId` is the id the subscription was opened with. The subscription is made once per mount, so a route change that does not remount the page keeps filtering and dispatching for the old id; the model does not capture that switch.
- SubCommentView.SubComment: the viewer always has an `_id`. With an undefined `auth.user._id`, the source's author test would also hold for a comment without an author.
- `JSON.stringify(state)`, `parseContent` and the editor internals are not modelled; the editor document is an opaque `EditorDoc`. Rendering, toasts on success, avatars, dates, scrolling, routing and `useMemo` lookups are also left out.
- The Dutch translation file of the editor build is not part of this model.
