/**
 * `src/pages/EditorPage.tsx`: the editor's page. Its access guard, the list of
 * the signed-in author's own articles, and the article form with its New,
 * Cancel, Edit, Save and Publish transitions.
 */
module EditorPage {
  import opened Common
  import opened Text
  import opened Ordering
  import opened Schema
  import opened Supabase

  /**
   * The page shows its content only to a signed-in editor or admin. A profile
   * without a role counts as a plain user and is turned away.
   */
  predicate Admits(user: Option<UserProfile>): (ok: bool)
    ensures ok <==> user.Some? && RoleOf(user.value) in {Editor, Admin}
  {
    user.Some? && (user.value.role == Some(Editor) || user.value.role == Some(Admin))
  }

  function ByAuthor(authorId: int): Article -> bool
  {
    (a: Article) => a.authorId == authorId
  }

  /** `.eq('author_id', authorId).order('created_at', { ascending: false })` */
  function MyArticles(rows: seq<Article>, authorId: int): seq<Article>
  {
    SortBy(Filter(rows, ByAuthor(authorId)), NewestFirst)
  }

  /** The author's list holds exactly their rows, newest first. */
  lemma MyArticlesSpec(rows: seq<Article>, authorId: int)
    ensures forall a :: a in MyArticles(rows, authorId) <==> a in rows && a.authorId == authorId
    ensures |MyArticles(rows, authorId)| == CountWhere(rows, ByAuthor(authorId))
    ensures forall i, j :: 0 <= i < j < |MyArticles(rows, authorId)| ==>
      MyArticles(rows, authorId)[i].createdAt >= MyArticles(rows, authorId)[j].createdAt
  {
    SortByMembers(Filter(rows, ByAuthor(authorId)), NewestFirst);
  }

  /** The buttons of one row of the author's list. */
  datatype ArticleAction = PublishAction(id: nat) | EditAction(article: Article)

  /** Publish is offered for drafts only; Edit always. */
  function Actions(a: Article): (r: seq<ArticleAction>)
    ensures PublishAction(a.id) in r <==> !a.isPublished
    ensures EditAction(a) in r
    ensures forall act :: act in r ==> act == PublishAction(a.id) || act == EditAction(a)
  {
    (if !a.isPublished then [PublishAction(a.id)] else []) + [EditAction(a)]
  }

  /** The page's state for one signed-in (or absent) user. */
  class EditorForm {
    const user: Option<UserProfile>
    var myArticles: seq<Article>
    var showNewForm: bool
    var editingArticle: Option<Article>
    var title: string
    var content: string

    /**
     * The listed articles are the user's own, and an article being edited is one
     * of theirs and has the form open.
     */
    ghost predicate Valid()
      reads this
    {
      && (forall a :: a in myArticles ==> user.Some? && a.authorId == user.value.id)
      && (editingArticle.Some? ==> showNewForm && user.Some? && editingArticle.value.authorId == user.value.id)
    }

    constructor (user: Option<UserProfile>)
      ensures Valid()
      ensures this.user == user && myArticles == [] && !showNewForm
      ensures editingArticle.None? && title == "" && content == ""
    {
      this.user := user;
      myArticles, showNewForm, editingArticle := [], false, None;
      title, content := "", "";
    }

    /** The guard of `handleSaveArticle`: a title and content that are not blank, and a user. */
    predicate ReadyToSave()
      reads this
    {
      !IsBlank(title) && !IsBlank(content) && user.Some?
    }

    /** `loadMyArticles`: without a user, or on a query error, the list stays as it is. */
    method LoadMyArticles(store: Store, net: Transport)
      requires Valid()
      modifies this`myArticles
      ensures Valid()
      ensures user.None? || net.Failed? ==> myArticles == old(myArticles)
      ensures user.Some? && net.Delivered? ==> myArticles == MyArticles(store.articles, user.value.id)
    {
      if user.None? || net.Failed? {
        return;
      }
      MyArticlesSpec(store.articles, user.value.id);
      myArticles := MyArticles(store.articles, user.value.id);
    }

    /**
     * The remote part of `handleSaveArticle`: the article being edited is
     * updated with the form's title and content, or else a draft by the user
     * is created. The form itself is not touched.
     */
    method SaveRequest(store: Store, net: Transport, now: int) returns (r: Result<Article>)
      requires ReadyToSave() && Valid() && store.Valid()
      modifies store`articles, store`nextId
      ensures store.Valid()
      ensures editingArticle.Some? ==>
        var id := editingArticle.value.id;
        var patch := ArticlePatch(Some(title), Some(content), None);
        && store.nextId == old(store.nextId)
        && (r.Ok? <==> net.Delivered? && FindArticle(old(store.articles), id).Some?)
        && (r.Ok? ==> store.articles == PatchRows(old(store.articles), id, patch, now))
        && (r.Err? ==> store.articles == old(store.articles))
      ensures editingArticle.None? ==>
        && (r.Ok? <==> net.Delivered?)
        && (r.Ok? ==>
              && store.nextId == old(store.nextId) + 1
              && store.articles == old(store.articles) + [Draft(old(store.nextId), title, content, user.value.id, now)])
        && (r.Err? ==> store.articles == old(store.articles) && store.nextId == old(store.nextId))
    {
      if editingArticle.Some? {
        r := store.UpdateArticle(editingArticle.value.id, ArticlePatch(Some(title), Some(content), None), net, now);
      } else {
        r := store.CreateArticle(title, content, user.value.id, net, now);
      }
    }

    /** The end of `handleSaveArticle`: a successful save closes and empties the form. */
    method FinishSave(saved: bool)
      requires Valid()
      modifies this`title, this`content, this`editingArticle, this`showNewForm
      ensures Valid()
      ensures saved ==> title == "" && content == "" && editingArticle.None? && !showNewForm
      ensures !saved ==> title == old(title) && content == old(content)
                         && editingArticle == old(editingArticle) && showNewForm == old(showNewForm)
    {
      if saved {
        title, content := "", "";
        editingArticle := None;
        showNewForm := false;
      }
    }

    /**
     * `handleSaveArticle`: update the article being edited, or create a draft.
     * `reload` tells whether the list is reloaded afterwards, which happens
     * exactly when the remote call succeeded.
     */
    method HandleSaveArticle(store: Store, net: Transport, now: int) returns (reload: bool)
      requires Valid() && store.Valid()
      modifies this`title, this`content, this`editingArticle, this`showNewForm
      modifies store`articles, store`nextId
      ensures Valid() && store.Valid()
      ensures !old(ReadyToSave()) ==> !reload && unchanged(this) && unchanged(store)
      ensures old(ReadyToSave()) && old(editingArticle).Some? ==>
        var id := old(editingArticle).value.id;
        var patch := ArticlePatch(Some(old(title)), Some(old(content)), None);
        && old(editingArticle).value.authorId == user.value.id
        && store.nextId == old(store.nextId)
        && (reload <==> net.Delivered? && FindArticle(old(store.articles), id).Some?)
        && (reload ==> store.articles == PatchRows(old(store.articles), id, patch, now))
        && (!reload ==> store.articles == old(store.articles))
      ensures old(ReadyToSave()) && old(editingArticle).None? ==>
        && (reload <==> net.Delivered?)
        && (reload ==>
              && store.nextId == old(store.nextId) + 1
              && store.articles == old(store.articles) + [Draft(old(store.nextId), old(title), old(content), user.value.id, now)])
        && (!reload ==> store.articles == old(store.articles) && store.nextId == old(store.nextId))
      ensures reload ==> title == "" && content == "" && editingArticle.None? && !showNewForm
      ensures !reload ==> title == old(title) && content == old(content)
                          && editingArticle == old(editingArticle) && showNewForm == old(showNewForm)
    {
      reload := false;
      if !ReadyToSave() {
        return;
      }
      var r := SaveRequest(store, net, now);
      ghost var stored, counter := store.articles, store.nextId;
      FinishSave(r.Ok?);
      assert store.articles == stored && store.nextId == counter;
      reload := r.Ok?;
    }

    /** `handlePublish(articleId)`: the list is reloaded exactly when the publish succeeded. */
    method HandlePublish(store: Store, articleId: nat, net: Transport, now: int) returns (reload: bool)
      requires store.Valid()
      modifies store`articles
      ensures store.Valid()
      ensures reload <==> net.Delivered? && FindArticle(old(store.articles), articleId).Some?
      ensures reload ==> store.articles == PatchRows(old(store.articles), articleId, PublishPatch, now)
      ensures !reload ==> store.articles == old(store.articles)
    {
      var r := store.PublishArticle(articleId, net, now);
      reload := r.Ok?;
    }

    /** The "New article" button: an empty form, not bound to any article. */
    method ClickNew()
      requires Valid()
      modifies this`showNewForm, this`editingArticle, this`title, this`content
      ensures Valid()
      ensures showNewForm && editingArticle.None? && title == "" && content == ""
    {
      showNewForm, editingArticle := true, None;
      title, content := "", "";
    }

    /** The "Cancel" button: the form is closed and emptied. */
    method ClickCancel()
      requires Valid()
      modifies this`showNewForm, this`editingArticle, this`title, this`content
      ensures Valid()
      ensures !showNewForm && editingArticle.None? && title == "" && content == ""
    {
      showNewForm, editingArticle := false, None;
      title, content := "", "";
    }

    /** The "Edit" button of a listed article: the form opens on a copy of it. */
    method ClickEdit(a: Article)
      requires Valid() && a in myArticles
      modifies this`showNewForm, this`editingArticle, this`title, this`content
      ensures Valid()
      ensures showNewForm && editingArticle == Some(a) && title == a.title && content == a.content
    {
      editingArticle := Some(a);
      title, content := a.title, a.content;
      showNewForm := true;
    }

    /** The title input's `onChange`. */
    method SetTitle(s: string)
      requires Valid()
      modifies this`title
      ensures Valid() && title == s
    {
      title := s;
    }

    /** The content editor's `onChange`. */
    method SetContent(s: string)
      requires Valid()
      modifies this`content
      ensures Valid() && content == s
    {
      content := s;
    }
  }

  /**
   * Saving an article opened with Edit and left as it was writes back its own
   * title and content: the row keeps every field but `updatedAt`.
   */
  lemma SaveUnchangedEdit(rows: seq<Article>, a: Article, now: int, k: nat)
    requires k < |rows| && rows[k] == a
    ensures PatchRows(rows, a.id, ArticlePatch(Some(a.title), Some(a.content), None), now)[k]
            == a.(updatedAt := now)
  {
    PatchRowsAt(rows, a.id, ArticlePatch(Some(a.title), Some(a.content), None), now, k);
  }
}
