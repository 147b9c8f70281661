/**
 * `src/components/CommentSection.tsx`: the comments under one article. The list
 * is replaced by a fetch, appended by the author's own submission and by the
 * realtime notification of an insert, and the submit button follows the input.
 */
module CommentSection {
  import opened Common
  import opened Text
  import opened Ordering
  import opened Schema
  import opened Supabase

  function CreatedAt(c: Comment): int { c.createdAt }

  /** `.eq('article_id', articleId).order('created_at', { ascending: true })` */
  function ArticleComments(rows: seq<Comment>, articleId: nat): seq<Comment>
  {
    SortBy(Filter(rows, CommentOn(articleId)), CreatedAt)
  }

  /** The fetched list holds exactly the article's comments, oldest first. */
  lemma ArticleCommentsSpec(rows: seq<Comment>, articleId: nat)
    ensures forall c :: c in ArticleComments(rows, articleId) <==> c in rows && c.articleId == articleId
    ensures |ArticleComments(rows, articleId)| == CountWhere(rows, CommentOn(articleId))
    ensures forall i, j :: 0 <= i < j < |ArticleComments(rows, articleId)| ==>
      ArticleComments(rows, articleId)[i].createdAt <= ArticleComments(rows, articleId)[j].createdAt
  {
    SortByMembers(Filter(rows, CommentOn(articleId)), CreatedAt);
  }

  /** `.eq('id', id).single()` on the comments: the comment with this id, if any. */
  function FindComment(rows: seq<Comment>, id: nat): Option<Comment>
  {
    FindByKey(rows, CommentId, id)
  }

  /** A comment appended with a fresh id is the one found under that id. */
  lemma FindFreshComment(rows: seq<Comment>, c: Comment)
    requires forall k :: 0 <= k < |rows| ==> rows[k].id < c.id
    ensures FindComment(rows + [c], c.id) == Some(c)
  {
    FindAppended(rows, CommentId, c);
  }

  /** The component's state for one article and one viewer. */
  class CommentList {
    const articleId: nat
    const userId: int
    var comments: seq<Comment>
    var newCommentText: string
    var loading: bool

    constructor (articleId: nat, userId: int)
      ensures this.articleId == articleId && this.userId == userId
      ensures comments == [] && newCommentText == "" && !loading
    {
      this.articleId, this.userId := articleId, userId;
      comments, newCommentText, loading := [], "", false;
    }

    /**
     * `disabled={loading || !newCommentText.trim()}`: the submit button is disabled
     * while a submission runs or while the trimmed input is empty.
     */
    predicate SubmitDisabled(): (d: bool)
      reads this
      ensures d <==> loading || Trim(newCommentText) == ""
    {
      TrimEmptyIffBlank(newCommentText);
      loading || IsBlank(newCommentText)
    }

    /** The input's `onChange`. */
    method SetText(s: string)
      modifies this`newCommentText
      ensures newCommentText == s
    {
      newCommentText := s;
    }

    /** `fetchComments`: on an error the list stays as it is. */
    method FetchComments(store: Store, net: Transport)
      modifies this`comments
      ensures net.Failed? ==> comments == old(comments)
      ensures net.Delivered? ==> comments == ArticleComments(store.comments, articleId)
    {
      if net.Delivered? {
        comments := ArticleComments(store.comments, articleId);
      }
    }

    /**
     * The part of `handleAddComment` before the remote call: a blank input stops
     * it; otherwise `loading` is raised and the text to send is returned.
     */
    method BeginAddComment() returns (text: Option<string>)
      modifies this`loading
      ensures IsBlank(newCommentText) ==> text.None? && loading == old(loading)
      ensures !IsBlank(newCommentText) ==> text == Some(newCommentText) && loading
    {
      if IsBlank(newCommentText) {
        return None;
      }
      loading := true;
      return Some(newCommentText);
    }

    /**
     * The part of `handleAddComment` after the remote call, entered with `loading`
     * raised: the new comment goes to the end and the input is cleared, or, on an
     * error, both stay; `loading` drops in both cases.
     */
    method EndAddComment(result: Result<Comment>)
      requires loading
      modifies this`comments, this`newCommentText, this`loading
      ensures !loading
      ensures result.Ok? ==> comments == old(comments) + [result.value] && newCommentText == ""
      ensures result.Err? ==> comments == old(comments) && newCommentText == old(newCommentText)
    {
      if result.Ok? {
        comments := comments + [result.value];
        newCommentText := "";
      }
      loading := false;
    }

    /** `handleAddComment`: the two parts around `addComment`. */
    method HandleAddComment(store: Store, net: Transport, now: int)
      requires store.Valid()
      modifies this`comments, this`newCommentText, this`loading, store`comments, store`nextId
      ensures store.Valid()
      ensures IsBlank(old(newCommentText)) ==> unchanged(this) && unchanged(store)
      ensures !IsBlank(old(newCommentText)) ==> !loading
      ensures !IsBlank(old(newCommentText)) && net.Delivered? ==>
        var c := Comment(old(store.nextId), articleId, userId, old(newCommentText), now);
        && store.comments == old(store.comments) + [c]
        && store.nextId == old(store.nextId) + 1
        && comments == old(comments) + [c]
        && newCommentText == ""
      ensures net.Failed? ==>
        && comments == old(comments) && newCommentText == old(newCommentText)
        && store.comments == old(store.comments) && store.nextId == old(store.nextId)
    {
      var text := BeginAddComment();
      if text.None? {
        return;
      }
      ghost var shown, typed := comments, newCommentText;
      var r := store.AddComment(articleId, userId, text.value, net, now);
      assert comments == shown && newCommentText == typed && loading;
      EndAddComment(r);
    }

    /**
     * The realtime handler for an insert into this article's comments: the row is
     * read back by id and, when found, appended as it is, with no check against
     * the rows already shown.
     */
    method OnRealtimeInsert(store: Store, commentId: nat, net: Transport)
      modifies this`comments
      ensures net.Delivered? && FindComment(store.comments, commentId).Some? ==>
        comments == old(comments) + [FindComment(store.comments, commentId).value]
      ensures net.Failed? || FindComment(store.comments, commentId).None? ==> comments == old(comments)
    {
      if net.Failed? {
        return;
      }
      var found := FindComment(store.comments, commentId);
      if found.Some? {
        comments := comments + [found.value];
      }
    }
  }

  /**
   * The author's own submission followed by the realtime notification of the
   * same insert: the comment ends up shown twice, at the end of the list.
   */
  method SubmitThenEcho(list: CommentList, store: Store, now: int)
    requires store.Valid()
    requires !IsBlank(list.newCommentText)
    modifies list`comments, list`newCommentText, list`loading, store`comments, store`nextId
    ensures |list.comments| == |old(list.comments)| + 2
    ensures list.comments[..|old(list.comments)|] == old(list.comments)
    ensures list.comments[|list.comments| - 1] == list.comments[|list.comments| - 2]
  {
    var c := Comment(store.nextId, list.articleId, list.userId, list.newCommentText, now);
    var rows, shown := store.comments, list.comments;
    FindFreshComment(rows, c);
    list.HandleAddComment(store, Delivered, now);
    assert store.comments == rows + [c];
    ghost var before := list.comments;
    assert before == shown + [c];
    list.OnRealtimeInsert(store, c.id, Delivered);
    assert list.comments == shown + [c, c];
  }
}
