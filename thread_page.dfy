/**
  The thread page's two decision layers: the handler attached to the realtime
  "Comments" subscription, which turns one remote mutation message into at
  most one store action, and the mark-read step run when a thread is opened.

  The handler is asynchronous: it may suspend once, on the author lookup.
  Here the lookup's reply is an input, so one call of `Handle` describes one
  complete run of the handler for one message.
 */
module ThreadPage {
  import opened Wrappers
  import opened Json

  const CreateRecord := "CREATE_RECORD"
  const UpdateRecord := "UPDATE_RECORD"
  const DeleteRecord := "DELETE_RECORD"
  const CreatedBy := "createdBy"

  /** A realtime message `{event, payload}`. For updates the payload carries
      the snapshots `before` and `after`. */
  datatype Message = Message(event: string, payload: Value)

  /** How the author lookup ended: the call threw, or it resolved with a
      response whose `data` field is given. */
  datatype LookupReply = LookupRejected | LookupResolved(data: Value)

  /** The store actions the handler can dispatch. */
  datatype Action =
    | AddComment(threadId: string, comment: map<string, Value>)
    | UpdateComment(threadId: string, comment: map<string, Value>)
    | DeleteComment(threadId: string, deletedId: Value)

  /** What a run of the handler ends in: one dispatched action, nothing, or a
      rejected promise (a TypeError on a nullish payload, or a failed lookup). */
  datatype Outcome = Dispatch(action: Action) | Ignore | Rejected

  /** A run of the handler: the id the author lookup asked for, if one was
      made, and its outcome. */
  datatype Reaction = Reaction(query: Option<Value>, outcome: Outcome)

  /** The event kinds for which the author is looked up. */
  predicate IsLookupEvent(event: string): (r: bool)
    ensures r ==> event != DeleteRecord
  {
    event == CreateRecord || event == UpdateRecord
  }

  /** The record that carries the thread reference and the author: the
      pre-update snapshot for updates, the payload itself otherwise. None
      when reaching it throws. */
  function Snapshot(m: Message): (r: Option<Value>)
    ensures m.event != UpdateRecord ==> r == Some(m.payload)
    ensures m.event == UpdateRecord ==> (r.None? <==> Nullish(m.payload))
  {
    if m.event == UpdateRecord then Member(m.payload, "before") else Some(m.payload)
  }

  /** `isCurrentThread`: the first entry of the snapshot's `threads` equals
      the open thread id. None when the property access throws. */
  function IsCurrentThread(m: Message, threadId: string): (r: Option<bool>)
    ensures r.None? <==>
      Nullish(m.payload) || (m.event == UpdateRecord && Nullish(Member(m.payload, "before").value))
  {
    match Snapshot(m)
    case None => None
    case Some(s) =>
      match Member(s, "threads")
      case None => None
      case Some(threads) => Some(OptionalFirst(threads) == Str(threadId))
  }

  /** The id the author lookup is made for, if it is made at all. */
  function LookupKey(m: Message): (r: Option<Value>)
    ensures r.Some? <==>
      && IsLookupEvent(m.event) && !Nullish(m.payload)
      && (m.event == UpdateRecord ==> !Nullish(Member(m.payload, "before").value))
  {
    if !IsLookupEvent(m.event) then None
    else match Snapshot(m)
      case None => None
      case Some(s) => Member(s, CreatedBy)
  }

  /** The action for a message of the open thread, given the resolved author. */
  function Emit(m: Message, threadId: string, author: Value): (r: Outcome)
    requires !Nullish(m.payload)
    ensures r.Dispatch? <==> IsLookupEvent(m.event) || m.event == DeleteRecord
    ensures r.Dispatch? ==> r.action.threadId == threadId
    ensures r.Dispatch? && !r.action.DeleteComment? ==>
      CreatedBy in r.action.comment && r.action.comment[CreatedBy] == author
  {
    if m.event == CreateRecord then
      Dispatch(AddComment(threadId, OwnFields(m.payload)[CreatedBy := author]))
    else if m.event == UpdateRecord then
      var before := Member(m.payload, "before").value;
      var after := Member(m.payload, "after").value;
      Dispatch(UpdateComment(threadId, Spread(before, after)[CreatedBy := author]))
    else if m.event == DeleteRecord then
      Dispatch(DeleteComment(threadId, Member(m.payload, "_id").value))
    else
      Ignore
  }

  /** One complete run of the subscription handler for message `m`;
      `threadId` is the thread id captured when the subscription was opened,
      and `reply` is consulted only when a lookup is made. */
  function Handle(m: Message, threadId: string, reply: LookupReply): (r: Reaction)
    ensures r.outcome.Dispatch? ==> IsCurrentThread(m, threadId) == Some(true)
    ensures r.outcome.Dispatch? ==> r.outcome.action.threadId == threadId
    ensures r.query.Some? ==> IsLookupEvent(m.event) && Snapshot(m).Some?
    ensures IsLookupEvent(m.event) && IsCurrentThread(m, threadId).Some? ==> r.query.Some?
    ensures r.outcome.Rejected? <==>
      IsCurrentThread(m, threadId).None? || (r.query.Some? && reply.LookupRejected?)
  {
    match IsCurrentThread(m, threadId)
    case None => Reaction(None, Rejected)
    case Some(current) =>
      var query := LookupKey(m);
      if query.Some? && reply.LookupRejected? then
        Reaction(query, Rejected)
      else
        var author := if query.Some? then OptionalFirst(reply.data) else Undefined;
        Reaction(query, if current then Emit(m, threadId, author) else Ignore)
  }

  /** The thread reference of a record, read as the source reads it:
      present when the first entry of `threads` is the given thread id. */
  ghost predicate ListsThreadFirst(f: map<string, Value>, threadId: string) {
    "threads" in f && f["threads"].Arr? &&
    |f["threads"].items| > 0 && f["threads"].items[0] == Str(threadId)
  }

  /** Membership is read from the snapshot's thread list, and a missing or
      empty list, or a nullish one, means "not the current thread". */
  lemma MembershipByThreadList(m: Message, threadId: string, f: map<string, Value>)
    requires Snapshot(m) == Some(Obj(f))
    requires "threads" in f ==> f["threads"].Arr? || Nullish(f["threads"])
    ensures IsCurrentThread(m, threadId) == Some(ListsThreadFirst(f, threadId))
    ensures "threads" !in f ==> IsCurrentThread(m, threadId) == Some(false)
  {
  }

  /** For an update, only the pre-update snapshot decides membership: two
      update messages with the same `before` agree, whatever their `after`
      or their top-level `threads`. */
  lemma UpdateMembershipUsesBefore(m1: Message, m2: Message, threadId: string)
    requires m1.event == UpdateRecord && m2.event == UpdateRecord
    requires m1.payload.Obj? && m2.payload.Obj?
    requires Member(m1.payload, "before") == Member(m2.payload, "before")
    ensures IsCurrentThread(m1, threadId) == IsCurrentThread(m2, threadId)
    ensures LookupKey(m1) == LookupKey(m2)
  {
  }

  /** A non-update message is a member exactly when its own `threads` lists
      the open thread first; the `before` field plays no part. */
  lemma OtherMembershipUsesPayload(m: Message, threadId: string, f: map<string, Value>)
    requires m.event != UpdateRecord
    requires m.payload == Obj(f)
    requires "threads" in f && f["threads"].Arr?
    ensures IsCurrentThread(m, threadId) == Some(ListsThreadFirst(f, threadId))
  {
  }

  /** An update whose before-snapshot has no record throws before anything
      else is done: no lookup, no action. */
  lemma UpdateWithoutBeforeRejects(m: Message, threadId: string, reply: LookupReply)
    requires m.event == UpdateRecord && m.payload.Obj?
    requires "before" !in m.payload.fields || Nullish(m.payload.fields["before"])
    ensures Handle(m, threadId, reply) == Reaction(None, Rejected)
  {
  }

  /** A message of another thread never dispatches, whatever its kind and
      whatever the lookup returns. */
  lemma ForeignMessageDispatchesNothing(m: Message, threadId: string, reply: LookupReply)
    requires IsCurrentThread(m, threadId) == Some(false)
    ensures Handle(m, threadId, reply).outcome == (
      if LookupKey(m).Some? && reply.LookupRejected? then Rejected else Ignore)
  {
  }

  /** The lookup is keyed by `before.createdBy` for updates and by
      `createdBy` for creates, and is still made when the message belongs to
      another thread; deletes and unknown kinds make none. */
  lemma LookupKeyChoice(m: Message, threadId: string, reply: LookupReply, f: map<string, Value>)
    requires m.payload == Obj(f)
    ensures m.event == CreateRecord ==>
      Handle(m, threadId, reply).query ==
        Some(if CreatedBy in f then f[CreatedBy] else Undefined)
    ensures m.event == UpdateRecord && "before" in f && f["before"].Obj? ==>
      Handle(m, threadId, reply).query ==
        Some(if CreatedBy in f["before"].fields then f["before"].fields[CreatedBy] else Undefined)
    ensures !IsLookupEvent(m.event) ==> Handle(m, threadId, reply).query.None?
  {
  }

  /** The resolved author is the first record the directory returned, or
      `undefined` when it returned none or no list at all. */
  lemma ResolvedAuthorIsFirstMatch(m: Message, threadId: string, data: Value)
    requires IsLookupEvent(m.event) && IsCurrentThread(m, threadId) == Some(true)
    ensures var r := Handle(m, threadId, LookupResolved(data));
      && r.outcome.Dispatch? && !r.outcome.action.DeleteComment?
      && CreatedBy in r.outcome.action.comment
      && (data.Arr? && |data.items| > 0 ==> r.outcome.action.comment[CreatedBy] == data.items[0])
      && (data.Arr? && |data.items| == 0 ==> r.outcome.action.comment[CreatedBy] == Undefined)
      && (Nullish(data) ==> r.outcome.action.comment[CreatedBy] == Undefined)
  {
  }

  /** When no lookup is made, the lookup reply has no influence at all. */
  lemma ReplyIrrelevantWithoutLookup(m: Message, threadId: string, r1: LookupReply, r2: LookupReply)
    requires LookupKey(m).None?
    ensures Handle(m, threadId, r1) == Handle(m, threadId, r2)
  {
  }

  /** A create of the open thread adds the payload as one comment whose only
      changed field is `createdBy`, now the resolved author. */
  lemma CreateAddsPayloadWithAuthor(m: Message, threadId: string, data: Value, f: map<string, Value>)
    requires m.event == CreateRecord && m.payload == Obj(f)
    requires IsCurrentThread(m, threadId) == Some(true)
    ensures var r := Handle(m, threadId, LookupResolved(data));
      && r.outcome.Dispatch? && r.outcome.action.AddComment?
      && r.outcome.action.threadId == threadId
      && r.outcome.action.comment.Keys == f.Keys + {CreatedBy}
      && r.outcome.action.comment[CreatedBy] == OptionalFirst(data)
      && (forall k :: k in f && k != CreatedBy ==> r.outcome.action.comment[k] == f[k])
  {
  }

  /** An update of the open thread merges the snapshots: every field of
      `after` takes `after`'s value, every other field keeps `before`'s, and
      `createdBy` is the resolved author. An `after` that is missing, null or
      not a record contributes no fields. */
  lemma UpdateMergesAfterOverBefore(m: Message, threadId: string, data: Value)
    requires m.event == UpdateRecord && !Nullish(m.payload)
    requires IsCurrentThread(m, threadId) == Some(true)
    ensures var before := OwnFields(Member(m.payload, "before").value);
      var after := OwnFields(Member(m.payload, "after").value);
      var r := Handle(m, threadId, LookupResolved(data));
      && r.outcome.Dispatch? && r.outcome.action.UpdateComment?
      && r.outcome.action.threadId == threadId
      && r.outcome.action.comment.Keys == before.Keys + after.Keys + {CreatedBy}
      && r.outcome.action.comment[CreatedBy] == OptionalFirst(data)
      && (forall k :: k in after && k != CreatedBy ==> r.outcome.action.comment[k] == after[k])
      && (forall k :: k in before && k !in after && k != CreatedBy ==>
            r.outcome.action.comment[k] == before[k])
  {
  }

  /** A delete of the open thread dispatches `deleteComment` for the
      payload's `_id`, without any lookup. */
  lemma DeleteRemovesById(m: Message, threadId: string, reply: LookupReply, f: map<string, Value>)
    requires m.event == DeleteRecord && m.payload == Obj(f)
    requires IsCurrentThread(m, threadId) == Some(true)
    ensures Handle(m, threadId, reply) == Reaction(None,
      Dispatch(DeleteComment(threadId, if "_id" in f then f["_id"] else Undefined)))
  {
  }

  /** Any other event kind makes no lookup and dispatches nothing. */
  lemma UnknownEventDispatchesNothing(m: Message, threadId: string, reply: LookupReply)
    requires !IsLookupEvent(m.event) && m.event != DeleteRecord
    ensures Handle(m, threadId, reply).query.None?
    ensures !Handle(m, threadId, reply).outcome.Dispatch?
  {
  }

  /** A comment moved from the open thread to another one is detected through
      its old location and updated here, carrying its new thread list. */
  lemma MovedCommentIsUpdatedHere(
    m: Message, threadId: string, data: Value, before: map<string, Value>, after: map<string, Value>)
    requires m.event == UpdateRecord && m.payload.Obj?
    requires Member(m.payload, "before") == Some(Obj(before))
    requires Member(m.payload, "after") == Some(Obj(after))
    requires ListsThreadFirst(before, threadId) && "threads" in after
    ensures var r := Handle(m, threadId, LookupResolved(data));
      && r.outcome.Dispatch? && r.outcome.action.UpdateComment?
      && r.outcome.action.threadId == threadId
      && "threads" in r.outcome.action.comment
      && r.outcome.action.comment["threads"] == after["threads"]
  {
    assert IsCurrentThread(m, threadId) == Some(true);
  }

  /** One message as delivered, together with how its own lookup ended. */
  datatype Delivery = Delivery(message: Message, reply: LookupReply)

  /** The actions dispatched for a stream of deliveries, in delivery order,
      assuming each handler run completes before the next one starts. */
  function Dispatched(ds: seq<Delivery>, threadId: string): (r: seq<Action>)
    ensures |r| <= |ds|
    ensures forall i :: 0 <= i < |r| ==> r[i].threadId == threadId
  {
    if ds == [] then []
    else
      var h := Handle(ds[0].message, threadId, ds[0].reply);
      (if h.outcome.Dispatch? then [h.outcome.action] else []) + Dispatched(ds[1..], threadId)
  }

  /** The deliveries whose message belongs to the open thread. */
  function OfThread(ds: seq<Delivery>, threadId: string): (r: seq<Delivery>)
    ensures |r| <= |ds|
    ensures forall i :: 0 <= i < |r| ==> IsCurrentThread(r[i].message, threadId) == Some(true)
    ensures forall d :: d in r ==> d in ds
    ensures forall d :: d in ds && IsCurrentThread(d.message, threadId) == Some(true) ==> d in r
  {
    if ds == [] then []
    else
      (if IsCurrentThread(ds[0].message, threadId) == Some(true) then [ds[0]] else [])
      + OfThread(ds[1..], threadId)
  }

  /** One subscription serves every thread: dropping the messages of other
      threads from the stream changes nothing in what the open thread sees. */
  lemma {:induction false} ForeignMessagesAreInert(ds: seq<Delivery>, threadId: string)
    ensures Dispatched(ds, threadId) == Dispatched(OfThread(ds, threadId), threadId)
  {
    if ds != [] {
      ForeignMessagesAreInert(ds[1..], threadId);
      var d := ds[0];
      if IsCurrentThread(d.message, threadId) == Some(true) {
        assert OfThread(ds, threadId) == [d] + OfThread(ds[1..], threadId);
        assert ([d] + OfThread(ds[1..], threadId))[1..] == OfThread(ds[1..], threadId);
      } else {
        assert OfThread(ds, threadId) == OfThread(ds[1..], threadId);
      }
    }
  }

  /** Dispatching is compositional over the stream: the actions for `a + b`
      are those for `a` followed by those for `b`. */
  lemma {:induction false} DispatchedAppend(a: seq<Delivery>, b: seq<Delivery>, threadId: string)
    ensures Dispatched(a + b, threadId) == Dispatched(a, threadId) + Dispatched(b, threadId)
  {
    if a != [] {
      assert (a + b)[0] == a[0];
      assert (a + b)[1..] == a[1..] + b;
      DispatchedAppend(a[1..], b, threadId);
    } else {
      assert a + b == b;
    }
  }

  // ---------------------------------------------------------------------
  // Marking the opened thread as read

  /** The signed-in user as the page sees it: an id and, perhaps, the list
      of threads already read. */
  datatype AuthUser = AuthUser(id: string, readedThreads: Option<seq<string>>)

  /** The `link` call that records a read thread for a user. */
  datatype LinkCall = LinkCall(userId: string, threadId: string)

  /** What `updateReadedThreads` does: the link call it issues, the list it
      dispatches to the user record, and whether it shows an error notice. */
  datatype ReadEffects = ReadEffects(link: Option<LinkCall>, update: Option<seq<string>>, notice: bool)

  /** The read list as the page takes it: a missing user or list is empty. */
  function KnownReads(user: Option<AuthUser>): (r: seq<string>)
    ensures user.None? ==> r == []
    ensures user.Some? && user.value.readedThreads.None? ==> r == []
  {
    if user.Some? && user.value.readedThreads.Some? then user.value.readedThreads.value else []
  }

  /** `updateReadedThreads`, with the outcome of the link call as an input
      (`linkRejects`: the call threw). */
  method UpdateReadedThreads(user: Option<AuthUser>, threadId: string, linkRejects: bool)
    returns (e: ReadEffects)
    ensures threadId in KnownReads(user) ==> e == ReadEffects(None, None, false)
    ensures threadId !in KnownReads(user) && user.None? ==> e == ReadEffects(None, None, true)
    ensures threadId !in KnownReads(user) && user.Some? ==>
      && e.link == Some(LinkCall(user.value.id, threadId))
      && e.notice == linkRejects
      && e.update == (if linkRejects then None else Some(KnownReads(user) + [threadId]))
    ensures e.update.Some? ==> e.link.Some? && !e.notice
    ensures e.update.Some? ==>
      multiset(e.update.value)[threadId] == 1 && e.update.value[..|e.update.value| - 1] == KnownReads(user)
  {
    var readedThreads: seq<string> := [];
    if user.Some? && user.value.readedThreads.Some? {
      readedThreads := user.value.readedThreads.value;
    }
    e := ReadEffects(None, None, false);
    if threadId !in readedThreads {
      if user.None? {
        // `auth.user.id` throws before the call is made; the catch shows the notice
        e := e.(notice := true);
      } else {
        e := e.(link := Some(LinkCall(user.value.id, threadId)));
        if linkRejects {
          e := e.(notice := true);
        } else {
          var updated := readedThreads + [threadId];
          assert updated[..|updated| - 1] == readedThreads;
          e := e.(update := Some(updated));
        }
      }
    }
  }
}
