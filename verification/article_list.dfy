/**
 * `src/components/ArticleList.tsx`: the feed of published articles, either all
 * of them or those the viewer saved, with its loading and error states.
 */
module ArticleList {
  import opened Common
  import opened Ordering
  import opened Schema
  import opened Supabase

  /** The message shown when the thrown value is not an `Error`. */
  const LoadFailed: string := "Ошибка загрузки"

  datatype Mode = AllArticles | SavedArticles

  /** `article.saved_by?.includes?.(userId)`: a missing `saved_by` counts as not saved. */
  function SavedBy(userId: int): Listed -> bool
  {
    (l: Listed) => l.article.savedBy.Some? && userId in l.article.savedBy.value
  }

  /** `visibleArticles` */
  function VisibleArticles(mode: Mode, articles: seq<Listed>, userId: int): (r: seq<Listed>)
    ensures mode == AllArticles ==> r == articles
    ensures mode == SavedArticles ==>
      && Subsequence(r, articles)
      && forall l :: l in r <==> l in articles && l.article.savedBy.Some? && userId in l.article.savedBy.value
  {
    if mode == AllArticles then articles else Filter(articles, SavedBy(userId))
  }

  /** What the component shows. */
  datatype View = Spinner | ErrorView(message: string) | EmptyView | ListView(items: seq<Listed>)

  /**
   * The render precedence: the spinner while loading, then a non-empty error
   * message, then the empty-state text, then the list. An error whose message is
   * the empty string is falsy and does not show.
   */
  function Render(loading: bool, error: Option<string>, visible: seq<Listed>): (v: View)
    ensures v == Spinner <==> loading
    ensures v.ErrorView? <==> !loading && error.Some? && error.value != ""
    ensures v.ErrorView? ==> v.message == error.value
    ensures v == EmptyView <==> !loading && (error.None? || error.value == "") && visible == []
    ensures v.ListView? ==> v.items == visible && visible != []
  {
    if loading then Spinner
    else if error.Some? && error.value != "" then ErrorView(error.value)
    else if visible == [] then EmptyView
    else ListView(visible)
  }

  /** The component's state. */
  class ArticleFeed {
    const mode: Mode
    const userId: int
    var articles: seq<Listed>
    var loading: bool
    var error: Option<string>

    constructor (mode: Mode, userId: int)
      ensures this.mode == mode && this.userId == userId
      ensures articles == [] && loading && error.None?
    {
      this.mode, this.userId := mode, userId;
      articles, loading, error := [], true, None;
    }

    /** What the component shows in its current state. */
    function View(): (v: View)
      reads this
      ensures v.ListView? ==> forall l :: l in v.items ==> l in articles
    {
      Render(loading, error, VisibleArticles(mode, articles, userId))
    }

    /** The part of `load` before the remote call. */
    method BeginLoad()
      modifies this`loading, this`error
      ensures loading && error.None?
    {
      loading, error := true, None;
    }

    /** The part of `load` after the remote call: the answer or the message of the thrown value. */
    method EndLoad(result: Result<seq<Listed>>)
      modifies this`articles, this`loading, this`error
      ensures !loading
      ensures result.Ok? ==> articles == result.value && error == old(error)
      ensures result.Err? ==> articles == old(articles) && error == Some(MessageOf(result.thrown, LoadFailed))
    {
      if result.Ok? {
        articles := result.value;
      } else {
        error := Some(MessageOf(result.thrown, LoadFailed));
      }
      loading := false;
    }

    /**
     * `load`: the first page of the published articles replaces the list, or the
     * error is recorded and the list stays; loading ends either way.
     */
    method Load(store: Store, net: Transport)
      modifies this`articles, this`loading, this`error
      ensures !loading
      ensures net.Delivered? ==>
        error.None? && articles == ArticlesPage(store.articles, store.comments, store.reactions, 20, 0)
      ensures net.Failed? ==> articles == old(articles) && error == Some(MessageOf(net.thrown, LoadFailed))
    {
      BeginLoad();
      var r := store.GetArticles(net);
      EndLoad(r);
    }
  }
}
