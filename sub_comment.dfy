/**
  A sub-comment's local edit state and its side of the shared mobile-menu
  command slot. The slot `{data, type, category}` lives in the store and is
  written by several components; a component acts on a command aimed at it
  and then clears the slot, so each command is used once.
 */
module SubCommentView {
  import opened Wrappers
  import opened Json

  /** The props the component reads from its sub-comment: `_id`, `content`
      (an absent content is the empty string) and `createdBy?._id`. */
  datatype SubCommentProps = SubCommentProps(id: string, content: string, author: Option<string>)

  /** The mobile-menu slot: the `_id` of the record in `data` (None for
      `data: null`), `type` and `category`. */
  datatype MenuCommand = MenuCommand(target: Option<string>, kind: string, category: Option<string>)

  /** `{data: null, type: "close"}`, written after a command is handled. */
  const Reset := MenuCommand(None, "close", None)

  /** The editor's document: loaded from a stored content, or as typed. */
  datatype EditorDoc = Loaded(source: string) | Typed(draft: string)

  /** A service reply: the call threw, or it returned `{data, error}`. */
  datatype ServiceReply = Threw | Replied(hasError: bool, data: Value)

  /** `!error` on a reply that did not throw. */
  predicate Succeeded(reply: ServiceReply): (r: bool)
    ensures r ==> !reply.Threw?
  {
    reply.Replied? && !reply.hasError
  }

  /** The calls made to the sub-comment service. */
  datatype ServiceCall = DeleteById(id: string) | UpdateById(id: string, content: EditorDoc)

  /** The store actions this component dispatches. */
  datatype StoreAction =
    | SetCommentMenu(command: MenuCommand)
    | DeleteSubCommentToComment(subCommentId: string, threadId: string, commentId: string)
    | UpdateSubCommentToComment(subComment: Value, threadId: string, commentId: string)

  /** Whether the slot's command is one this sub-comment acts on: aimed at
      its id, and neither "close" nor "open". */
  predicate IsCommandFor(cmd: MenuCommand, id: string): (r: bool)
    ensures r ==> cmd != Reset
    ensures cmd.kind == "open" ==> !r
  {
    cmd.target == Some(id) && cmd.kind != "close" && cmd.kind != "open"
  }

  /** The cleared slot is never acted on, by any sub-comment. */
  lemma ResetIsNeverActedOn(id: string)
    ensures !IsCommandFor(Reset, id)
  {
  }

  class SubComment {
    var comment: SubCommentProps
    const parentId: string
    const threadId: string
    /** `auth.user._id`, the signed-in viewer. */
    const viewer: string

    var isEdit: bool
    var editor: EditorDoc
    /** The shared mobile-menu slot, as this component sees it. */
    var menu: MenuCommand
    /** The store actions dispatched by this component, oldest first. */
    var dispatched: seq<StoreAction>
    /** The service calls made by this component, oldest first. */
    var calls: seq<ServiceCall>

    constructor (comment: SubCommentProps, parentId: string, threadId: string, viewer: string, menu: MenuCommand)
      ensures this.comment == comment && this.parentId == parentId
      ensures this.threadId == threadId && this.viewer == viewer && this.menu == menu
      ensures !isEdit && editor == Loaded(comment.content)
      ensures dispatched == [] && calls == []
    {
      this.comment := comment;
      this.parentId := parentId;
      this.threadId := threadId;
      this.viewer := viewer;
      this.menu := menu;
      isEdit := false;
      editor := Loaded(comment.content);
      dispatched := [];
      calls := [];
    }

    /** `comment?.createdBy?._id === auth.user._id`. */
    predicate IsAuthor(): (r: bool)
      reads this
      ensures r ==> comment.author.Some?
    {
      comment.author == Some(viewer)
    }

    /** The desktop hover menu (edit, delete) is rendered only for the
        author, and only while not editing. */
    predicate HoverMenuShown(): (r: bool)
      reads this
      ensures r ==> comment.author.Some? && !isEdit
    {
      IsAuthor() && !isEdit
    }

    /** The content effect: a new, non-empty stored content is loaded into
        the editor. */
    method ContentChanged(next: SubCommentProps)
      modifies this
      ensures comment == next
      ensures editor == (if next.content != old(comment.content) && next.content != ""
                         then Loaded(next.content) else old(editor))
      ensures isEdit == old(isEdit) && menu == old(menu)
      ensures dispatched == old(dispatched) && calls == old(calls)
    {
      var changed := next.content != comment.content;
      comment := next;
      if changed && next.content != "" {
        editor := Loaded(next.content);
      }
    }

    /** The user types in the editor. */
    method EditorChanged(doc: EditorDoc)
      modifies this`editor
      ensures editor == doc
    {
      editor := doc;
    }

    /** Another component writes the shared slot. */
    method MenuWritten(cmd: MenuCommand)
      modifies this`menu
      ensures menu == cmd
    {
      menu := cmd;
    }

    /** Long press: opens the mobile menu on this sub-comment, only for its
        author and only while not editing. */
    method LongPress()
      modifies this`menu, this`dispatched
      ensures var open := MenuCommand(Some(comment.id), "open", Some("subComment"));
        if IsAuthor() && !isEdit then
          menu == open && dispatched == old(dispatched) + [SetCommentMenu(open)]
        else
          menu == old(menu) && dispatched == old(dispatched)
      ensures !IsCommandFor(menu, comment.id) || menu == old(menu)
    {
      if IsAuthor() && !isEdit {
        var open := MenuCommand(Some(comment.id), "open", Some("subComment"));
        menu := open;
        dispatched := dispatched + [SetCommentMenu(open)];
      }
    }

    /** The hover menu's "Edit Comment" item. */
    method HoverEdit()
      requires HoverMenuShown()
      modifies this`isEdit
      ensures isEdit
    {
      isEdit := true;
    }

    /** The hover menu's "Delete Comment" item. */
    method HoverDelete(reply: ServiceReply)
      requires HoverMenuShown()
      modifies this`calls, this`dispatched
      ensures calls == old(calls) + [DeleteById(comment.id)]
      ensures dispatched == old(dispatched) +
        (if Succeeded(reply) then [DeleteSubCommentToComment(comment.id, threadId, parentId)] else [])
    {
      Delete(reply);
    }

    /** `handleDeleteComment`: deletes by id, and removes the sub-comment from
        its comment in the store only when the service reports no error. */
    method Delete(reply: ServiceReply)
      modifies this`calls, this`dispatched
      ensures calls == old(calls) + [DeleteById(comment.id)]
      ensures dispatched == old(dispatched) +
        (if Succeeded(reply) then [DeleteSubCommentToComment(comment.id, threadId, parentId)] else [])
    {
      calls := calls + [DeleteById(comment.id)];
      if Succeeded(reply) {
        dispatched := dispatched + [DeleteSubCommentToComment(comment.id, threadId, parentId)];
      }
    }

    /** `discardComment`: reloads the stored content and leaves edit mode. */
    method Discard()
      modifies this`editor, this`isEdit
      ensures editor == Loaded(comment.content) && !isEdit
    {
      editor := Loaded(comment.content);
      isEdit := false;
    }

    /** `handleUpdateComment`: sends the editor's document; on success stores
        the server's record and discards the edit, otherwise changes nothing. */
    method Save(reply: ServiceReply)
      modifies this`calls, this`dispatched, this`editor, this`isEdit
      ensures calls == old(calls) + [UpdateById(comment.id, old(editor))]
      ensures Succeeded(reply) ==>
        && dispatched == old(dispatched) + [UpdateSubCommentToComment(reply.data, threadId, parentId)]
        && !isEdit && editor == Loaded(comment.content)
      ensures !Succeeded(reply) ==>
        dispatched == old(dispatched) && isEdit == old(isEdit) && editor == old(editor)
    {
      calls := calls + [UpdateById(comment.id, editor)];
      if Succeeded(reply) {
        dispatched := dispatched + [UpdateSubCommentToComment(reply.data, threadId, parentId)];
        Discard();
      }
    }

    /** The mobile-menu effect. A command aimed at this sub-comment is carried
        out ("edit" enters edit mode, "delete" deletes, any other type does
        nothing more) and the slot is then cleared; the delete's store action,
        if any, comes after the clearing, once its reply is in. */
    method MenuEffect(deleteReply: ServiceReply)
      modifies this`isEdit, this`menu, this`calls, this`dispatched
      ensures !IsCommandFor(old(menu), comment.id) ==>
        isEdit == old(isEdit) && menu == old(menu) && calls == old(calls) && dispatched == old(dispatched)
      ensures IsCommandFor(old(menu), comment.id) ==>
        && menu == Reset
        && isEdit == (old(isEdit) || old(menu).kind == "edit")
        && calls == old(calls) + (if old(menu).kind == "delete" then [DeleteById(comment.id)] else [])
        && dispatched == old(dispatched) + [SetCommentMenu(Reset)] +
             (if old(menu).kind == "delete" && Succeeded(deleteReply)
              then [DeleteSubCommentToComment(comment.id, threadId, parentId)] else [])
      ensures !IsCommandFor(menu, comment.id)
    {
      if IsCommandFor(menu, comment.id) {
        var kind := menu.kind;
        if kind == "edit" {
          isEdit := true;
        }
        if kind == "delete" {
          calls := calls + [DeleteById(comment.id)];
        }
        menu := Reset;
        dispatched := dispatched + [SetCommentMenu(Reset)];
        if kind == "delete" && Succeeded(deleteReply) {
          dispatched := dispatched + [DeleteSubCommentToComment(comment.id, threadId, parentId)];
        }
      }
    }
  }

  /** A command is consumed once: after the effect has acted on an "edit"
      command, running the effect again (as the slot change triggers) does
      nothing, and edit mode stays on. */
  method EditCommandConsumedOnce(s: SubComment, reply: ServiceReply)
    requires IsCommandFor(s.menu, s.comment.id) && s.menu.kind == "edit"
    modifies s
  {
    var before := |s.dispatched|;
    s.MenuEffect(reply);
    assert s.isEdit && s.menu == Reset && |s.dispatched| == before + 1;
    s.MenuEffect(reply);
    assert s.isEdit && s.menu == Reset && |s.dispatched| == before + 1;
  }

  /** Long press by the author, then the menu's "delete" choice: the slot
      opens, is overwritten by the menu, and the effect deletes once. */
  method LongPressThenDelete(s: SubComment)
    requires s.IsAuthor() && !s.isEdit && s.dispatched == [] && s.calls == []
    modifies s
  {
    s.LongPress();
    assert s.menu.kind == "open" && !IsCommandFor(s.menu, s.comment.id);
    s.MenuEffect(Replied(false, Null));
    assert s.calls == [];
    s.MenuWritten(MenuCommand(Some(s.comment.id), "delete", Some("subComment")));
    s.MenuEffect(Replied(false, Null));
    assert s.calls == [DeleteById(s.comment.id)];
    assert s.dispatched[|s.dispatched| - 1] == DeleteSubCommentToComment(s.comment.id, s.threadId, s.parentId);
    assert s.menu == Reset;
  }
}
