/**
 * The content repository of `src/lib/supabase.ts`: profile get-or-create, the
 * published-article listing, draft creation, update and publication, comment
 * insertion, the reaction toggle, role read and write, and user search.
 *
 * The remote tables are the fields of a `Store`; every exported function of
 * the repository is one method of it, executed as a single sequential step.
 * Each method takes the `Transport` outcome of each of its round trips.
 */
module Supabase {
  import opened Common
  import opened Text
  import opened Ordering
  import opened Schema

  /** The error the service reports when `.single()` finds no row to return. */
  const NoRows: Thrown := ErrorObject("JSON object requested, multiple (or no) rows returned")

  /** The default emoji of `toggleReaction`. */
  const DefaultEmoji: string := "\U{1F44D}"

  /** The number of profiles a user search returns at most. */
  const SearchLimit: nat := 10

  function ProfileId(p: UserProfile): int { p.id }
  function ArticleId(a: Article): int { a.id }
  function CommentId(c: Comment): int { c.id }
  function ReactionId(r: Reaction): int { r.id }

  // ---------------------------------------------------------------- profiles

  /** `.from('user_profiles').eq('id', id).single()`: the profile with this id, if any. */
  function FindProfile(rows: seq<UserProfile>, id: int): Option<UserProfile>
  {
    FindByKey(rows, ProfileId, id)
  }

  /** The username a new profile gets when Telegram supplies none: `user_<id>`. */
  function Placeholder(id: int): string
  {
    "user_" + IntString(id)
  }

  /** The row `getOrCreateUserProfile` inserts for a user seen for the first time. */
  function NewProfile(tg: TelegramUser, now: int): (p: UserProfile)
    ensures p.id == tg.id && p.role == Some(User) && p.createdAt == now
    ensures p.username != ""
    ensures p.username == if tg.username.Some? && tg.username.value != "" then tg.username.value else Placeholder(tg.id)
    ensures p.firstName == if tg.firstName.Some? then tg.firstName.value else ""
    ensures p.lastName == if tg.lastName.Some? then tg.lastName.value else ""
    ensures p.photoUrl.Some? <==> tg.photoUrl.Some? && tg.photoUrl.value != ""
    ensures p.photoUrl.Some? ==> p.photoUrl == tg.photoUrl
  {
    UserProfile(
      tg.id,
      OrElse(tg.username, Placeholder(tg.id)),
      OrElse(tg.firstName, ""),
      OrElse(tg.lastName, ""),
      OrNull(tg.photoUrl),
      Some(User),
      now)
  }

  /** The decimal rendering of a natural number determines the number. */
  lemma DecimalStringInjective(a: nat, b: nat)
    requires DecimalString(a) == DecimalString(b)
    ensures a == b
  {
    ParseDecimalString(a);
    ParseDecimalString(b);
  }

  /** The decimal rendering of an integer determines the integer. */
  lemma IntStringInjective(a: int, b: int)
    requires IntString(a) == IntString(b)
    ensures a == b
  {
    var sa, sb := IntString(a), IntString(b);
    assert (a < 0) == (sa[0] == '-') by {
      if a >= 0 {
        assert IsDigit(DecimalString(a)[0]);
      }
    }
    assert (b < 0) == (sb[0] == '-') by {
      if b >= 0 {
        assert IsDigit(DecimalString(b)[0]);
      }
    }
    if a < 0 {
      assert DecimalString(-a) == sa[1..] && DecimalString(-b) == sb[1..];
      DecimalStringInjective(-a, -b);
    } else {
      DecimalStringInjective(a, b);
    }
  }

  /** Two different ids never receive the same placeholder username. */
  lemma PlaceholderInjective(a: int, b: int)
    requires Placeholder(a) == Placeholder(b)
    ensures a == b
  {
    assert IntString(a) == Placeholder(a)[5..] && IntString(b) == Placeholder(b)[5..];
    IntStringInjective(a, b);
  }

  /** The profiles with their role column overwritten for `id`. */
  function SetRole(rows: seq<UserProfile>, id: int, role: Role): (r: seq<UserProfile>)
    ensures |r| == |rows|
    ensures forall k :: 0 <= k < |rows| ==> r[k].id == rows[k].id
  {
    if rows == [] then []
    else [if rows[0].id == id then rows[0].(role := Some(role)) else rows[0]] + SetRole(rows[1..], id, role)
  }

  /** After a role write, a role read of the same id returns the written role, and
      the profile is otherwise unchanged. */
  lemma {:induction false} RoleReadAfterWrite(rows: seq<UserProfile>, id: int, role: Role)
    requires FindProfile(rows, id).Some?
    ensures FindProfile(SetRole(rows, id, role), id) == Some(FindProfile(rows, id).value.(role := Some(role)))
    ensures EffectiveRole(FindProfile(SetRole(rows, id, role), id).value.role) == role
  {
    if rows[0].id != id {
      RoleReadAfterWrite(rows[1..], id, role);
    }
  }

  /** A role write leaves every other profile exactly as it was. */
  lemma {:induction false} SetRoleOnlyTouchesId(rows: seq<UserProfile>, id: int, role: Role, k: nat)
    requires k < |rows|
    ensures rows[k].id != id ==> SetRole(rows, id, role)[k] == rows[k]
    ensures rows[k].id == id ==> SetRole(rows, id, role)[k] == rows[k].(role := Some(role))
  {
    if k > 0 {
      SetRoleOnlyTouchesId(rows[1..], id, role, k - 1);
    }
  }

  /**
   * What a search query selects: for `/^\d+$/` only the id is compared, with the
   * query's `parseInt` value; for any other query only the username, by `ilike`.
   */
  function QueryMatcher(query: string): (m: UserProfile -> bool)
    ensures IsAllDigits(query) ==> forall p :: m(p) <==> p.id == ParseDecimal(query)
    ensures !IsAllDigits(query) ==> forall p :: m(p) <==> ILikeContains(p.username, query)
  {
    if IsAllDigits(query) then
      var n := ParseDecimal(query);
      (p: UserProfile) => p.id == n
    else
      (p: UserProfile) => ILikeContains(p.username, query)
  }

  /** Searching for the decimal rendering of an id selects exactly the profile with that id. */
  lemma {:induction false} SearchByDecimalId(rows: seq<UserProfile>, p: UserProfile)
    requires DistinctKeys(rows, ProfileId)
    requires p in rows && p.id >= 0
    ensures Filter(rows, QueryMatcher(DecimalString(p.id))) == [p]
  {
    var q := DecimalString(p.id);
    ParseDecimalString(p.id);
    assert QueryMatcher(q)(p);
    if rows[0] == p {
      forall k | 0 <= k < |rows[1..]| ensures !QueryMatcher(q)(rows[1..][k]) {
        assert rows[1..][k] == rows[k + 1];
      }
      FilterNone(rows[1..], QueryMatcher(q));
    } else {
      assert rows[0].id != p.id by {
        var j :| 0 <= j < |rows| && rows[j] == p;
        assert j != 0;
      }
      assert DistinctKeys(rows[1..], ProfileId);
      SearchByDecimalId(rows[1..], p);
    }
  }

  // ---------------------------------------------------------------- articles

  /** The fields `updateArticle` is given by its callers; absent ones are left alone. */
  datatype ArticlePatch = ArticlePatch(
    title: Option<string>,
    content: Option<string>,
    isPublished: Option<bool>)

  /** `publishArticle(id)` is `updateArticle(id, { is_published: true })`. */
  const PublishPatch := ArticlePatch(None, None, Some(true))

  /** The row `createArticle` inserts: always a draft. */
  function Draft(id: nat, title: string, content: string, authorId: int, now: int): Article
  {
    Article(id, title, content, authorId, false, 0, now, now, None)
  }

  /** `{ ...updates, updated_at: now }` applied to one row. */
  function ApplyPatch(a: Article, patch: ArticlePatch, now: int): (b: Article)
    ensures b.(title := a.title, content := a.content, isPublished := a.isPublished, updatedAt := a.updatedAt) == a
    ensures b.updatedAt == now
    ensures patch.title.Some? ==> b.title == patch.title.value
    ensures patch.content.Some? ==> b.content == patch.content.value
    ensures patch.isPublished.Some? ==> b.isPublished == patch.isPublished.value
    ensures patch.title.None? ==> b.title == a.title
    ensures patch.content.None? ==> b.content == a.content
    ensures patch.isPublished.None? ==> b.isPublished == a.isPublished
  {
    a.(title := if patch.title.Some? then patch.title.value else a.title,
       content := if patch.content.Some? then patch.content.value else a.content,
       isPublished := if patch.isPublished.Some? then patch.isPublished.value else a.isPublished,
       updatedAt := now)
  }

  /** `.update(...).eq('id', id)` over the whole table. */
  function PatchRows(rows: seq<Article>, id: nat, patch: ArticlePatch, now: int): (r: seq<Article>)
    ensures |r| == |rows|
    ensures forall k :: 0 <= k < |rows| ==> r[k].id == rows[k].id
  {
    seq(|rows|, k requires 0 <= k < |rows| =>
      if rows[k].id == id then ApplyPatch(rows[k], patch, now) else rows[k])
  }

  /** The article with this id, if any. */
  function FindArticle(rows: seq<Article>, id: nat): Option<Article>
  {
    FindByKey(rows, ArticleId, id)
  }

  /** An update changes the supplied fields and the timestamp of the rows with that id,
      and nothing else. */
  lemma PatchRowsAt(rows: seq<Article>, id: nat, patch: ArticlePatch, now: int, k: nat)
    requires k < |rows|
    ensures rows[k].id != id ==> PatchRows(rows, id, patch, now)[k] == rows[k]
    ensures rows[k].id == id ==>
      var b := PatchRows(rows, id, patch, now)[k];
      && b.updatedAt == now
      && b.title == (if patch.title.Some? then patch.title.value else rows[k].title)
      && b.content == (if patch.content.Some? then patch.content.value else rows[k].content)
      && b.isPublished == (if patch.isPublished.Some? then patch.isPublished.value else rows[k].isPublished)
      && b.(title := rows[k].title, content := rows[k].content,
            isPublished := rows[k].isPublished, updatedAt := rows[k].updatedAt) == rows[k]
  {
  }

  /** Publishing twice leaves the table as publishing once at the later time would. */
  lemma PublishTwice(rows: seq<Article>, id: nat, t1: int, t2: int)
    ensures PatchRows(PatchRows(rows, id, PublishPatch, t1), id, PublishPatch, t2)
         == PatchRows(rows, id, PublishPatch, t2)
  {
    var once := PatchRows(rows, id, PublishPatch, t1);
    var twice := PatchRows(once, id, PublishPatch, t2);
    var direct := PatchRows(rows, id, PublishPatch, t2);
    forall k | 0 <= k < |rows| ensures twice[k] == direct[k] {
      PatchRowsAt(rows, id, PublishPatch, t1, k);
      PatchRowsAt(once, id, PublishPatch, t2, k);
      PatchRowsAt(rows, id, PublishPatch, t2, k);
    }
  }

  function IsPublished(a: Article): bool { a.isPublished }

  /** The sort key of `.order('created_at', { ascending: false })`. */
  function NewestFirst(a: Article): int { -a.createdAt }

  /** The published articles, newest first: what `getArticles` pages through. */
  function PublishedNewestFirst(rows: seq<Article>): seq<Article>
  {
    SortBy(Filter(rows, IsPublished), NewestFirst)
  }

  /** The public listing holds exactly the published rows of the table. */
  lemma PublishedListing(rows: seq<Article>)
    ensures forall a :: a in PublishedNewestFirst(rows) <==> a in rows && a.isPublished
    ensures forall i, j :: 0 <= i < j < |PublishedNewestFirst(rows)| ==>
      PublishedNewestFirst(rows)[i].createdAt >= PublishedNewestFirst(rows)[j].createdAt
  {
    SortByMembers(Filter(rows, IsPublished), NewestFirst);
    var s := PublishedNewestFirst(rows);
    forall i, j | 0 <= i < j < |s| ensures s[i].createdAt >= s[j].createdAt {
      assert NewestFirst(s[i]) <= NewestFirst(s[j]);
    }
  }

  /** Creating a draft does not change the public listing. */
  lemma DraftNotListed(rows: seq<Article>, d: Article)
    requires !d.isPublished
    ensures PublishedNewestFirst(rows + [d]) == PublishedNewestFirst(rows)
  {
    FilterAppend(rows, d, IsPublished);
    assert Filter(rows + [d], IsPublished) == Filter(rows, IsPublished);
  }

  /** After `publishArticle(id)` the article with that id is in the public listing. */
  lemma ListedAfterPublish(rows: seq<Article>, id: nat, now: int)
    requires FindArticle(rows, id).Some?
    ensures ApplyPatch(FindArticle(rows, id).value, PublishPatch, now)
         in PublishedNewestFirst(PatchRows(rows, id, PublishPatch, now))
  {
    var a := FindArticle(rows, id).value;
    var k :| 0 <= k < |rows| && rows[k] == a;
    var after := PatchRows(rows, id, PublishPatch, now);
    PatchRowsAt(rows, id, PublishPatch, now, k);
    assert after[k] == ApplyPatch(a, PublishPatch, now);
    PublishedListing(after);
  }

  /** `article.comments?.length || 0` and the same for reactions, over the nested lists. */
  datatype Fetched = Fetched(article: Article, comments: Option<seq<int>>, reactions: Option<seq<int>>)

  /** An article as `getArticles` returns it: every column plus the two derived counts. */
  datatype Listed = Listed(article: Article, commentsCount: nat, reactionsCount: nat)

  /** `{ ...article, comments_count: ..., reactions_count: ... }` */
  function WithCounts(f: Fetched): (l: Listed)
    ensures l.article == f.article
    ensures f.comments.None? ==> l.commentsCount == 0
    ensures f.comments.Some? ==> l.commentsCount == |f.comments.value|
    ensures f.reactions.None? ==> l.reactionsCount == 0
    ensures f.reactions.Some? ==> l.reactionsCount == |f.reactions.value|
  {
    Listed(
      f.article,
      if f.comments.Some? then |f.comments.value| else 0,
      if f.reactions.Some? then |f.reactions.value| else 0)
  }

  function CommentOn(articleId: nat): Comment -> bool
  {
    (c: Comment) => c.articleId == articleId
  }

  function ReactionOn(articleId: nat): Reaction -> bool
  {
    (r: Reaction) => r.articleId == articleId
  }

  /** One row of `getArticles`: the article with its nested comment and reaction ids counted. */
  function Listing(a: Article, comments: seq<Comment>, reactions: seq<Reaction>): (l: Listed)
    ensures l.article == a
    ensures l.commentsCount == CountWhere(comments, CommentOn(a.id))
    ensures l.reactionsCount == CountWhere(reactions, ReactionOn(a.id))
  {
    WithCounts(Fetched(
      a,
      Some(Column(Filter(comments, CommentOn(a.id)), CommentId)),
      Some(Column(Filter(reactions, ReactionOn(a.id)), ReactionId))))
  }

  /**
   * One page of `getArticles(limit, offset)`: positions offset .. offset + limit - 1
   * of the published articles, newest first, each with its two counts.
   */
  function ArticlesPage(articles: seq<Article>, comments: seq<Comment>, reactions: seq<Reaction>,
                        limit: nat, offset: nat): (r: seq<Listed>)
    ensures var page := Range(PublishedNewestFirst(articles), limit, offset);
      |r| == |page| && forall k :: 0 <= k < |r| ==> r[k] == Listing(page[k], comments, reactions)
    ensures |r| <= limit
    ensures forall k :: 0 <= k < |r| ==> r[k].article in articles && r[k].article.isPublished
    ensures forall i, j :: 0 <= i < j < |r| ==> r[i].article.createdAt >= r[j].article.createdAt
  {
    var page := Range(PublishedNewestFirst(articles), limit, offset);
    PublishedListing(articles);
    assert forall k :: 0 <= k < |page| ==> page[k] in PublishedNewestFirst(articles);
    seq(|page|, k requires 0 <= k < |page| => Listing(page[k], comments, reactions))
  }

  // ---------------------------------------------------------------- reactions

  /** The rows `toggleReaction` looks up: same article, user and emoji. */
  function SameReaction(articleId: nat, userId: int, emoji: string): Reaction -> bool
  {
    (r: Reaction) => r.articleId == articleId && r.userId == userId && r.emoji == emoji
  }

  /** The rows of one user on one article, whatever the emoji. */
  function ReactionOf(articleId: nat, userId: int): Reaction -> bool
  {
    (r: Reaction) => r.articleId == articleId && r.userId == userId
  }

  function HasEmoji(emoji: string): Reaction -> bool
  {
    (r: Reaction) => r.emoji == emoji
  }

  function IdIsNot(id: nat): Reaction -> bool
  {
    (r: Reaction) => r.id != id
  }

  /** `.delete().eq('id', id)` */
  function DeleteReaction(rows: seq<Reaction>, id: nat): seq<Reaction>
  {
    Filter(rows, IdIsNot(id))
  }

  /**
   * `existing` of `toggleReaction`: `.single()` yields a row only when the lookup
   * got through and exactly one row matched. A failed lookup is not checked and
   * reads as "no row".
   */
  function Existing(rows: seq<Reaction>, articleId: nat, userId: int, emoji: string, lookup: Transport): (r: Option<Reaction>)
    ensures r.Some? ==> r.value in rows && SameReaction(articleId, userId, emoji)(r.value)
    ensures r.None? <==> lookup.Failed? || CountWhere(rows, SameReaction(articleId, userId, emoji)) != 1
  {
    var matching := Filter(rows, SameReaction(articleId, userId, emoji));
    if lookup.Delivered? && |matching| == 1 then Some(matching[0]) else None
  }

  /** The table, the id counter and the returned row after one successful toggle. */
  datatype ToggleStep = ToggleStep(rows: seq<Reaction>, nextId: nat, returned: Option<Reaction>)

  function Toggle(rows: seq<Reaction>, nextId: nat, articleId: nat, userId: int, emoji: string, lookup: Transport): (s: ToggleStep)
    ensures s.returned.None? <==> Existing(rows, articleId, userId, emoji, lookup).Some?
    ensures s.returned.None? ==>
      var found := Existing(rows, articleId, userId, emoji, lookup).value;
      && (forall x :: x in s.rows <==> x in rows && x.id != found.id)
      && Subsequence(s.rows, rows) && |s.rows| < |rows| && s.nextId == nextId
    ensures s.returned.Some? ==>
      && s.returned.value.id == nextId && SameReaction(articleId, userId, emoji)(s.returned.value)
      && s.rows == rows + [s.returned.value] && s.nextId == nextId + 1
  {
    match Existing(rows, articleId, userId, emoji, lookup)
    case Some(found) =>
      FilterDrops(rows, IdIsNot(found.id), found);
      ToggleStep(DeleteReaction(rows, found.id), nextId, None)
    case None =>
      var added := Reaction(nextId, articleId, userId, emoji);
      ToggleStep(rows + [added], nextId + 1, Some(added))
  }

  /** Toggling an absent reaction twice restores the table exactly. */
  lemma ToggleTwiceFromAbsent(rows: seq<Reaction>, nextId: nat, articleId: nat, userId: int, emoji: string)
    requires forall k :: 0 <= k < |rows| ==> rows[k].id < nextId
    requires CountWhere(rows, SameReaction(articleId, userId, emoji)) == 0
    ensures var s1 := Toggle(rows, nextId, articleId, userId, emoji, Delivered);
            Toggle(s1.rows, s1.nextId, articleId, userId, emoji, Delivered).rows == rows
  {
    var added := Reaction(nextId, articleId, userId, emoji);
    var p := SameReaction(articleId, userId, emoji);
    FilterAppend(rows, added, p);
    assert Filter(rows + [added], p) == [added];
    FilterAppend(rows, added, IdIsNot(nextId));
    FilterAll(rows, IdIsNot(nextId));
  }

  /**
   * Toggling a present reaction twice removes it and inserts a fresh row for the
   * same article, user and emoji: every other row is kept, and there is again
   * exactly one matching row.
   */
  lemma ToggleTwiceFromPresent(rows: seq<Reaction>, nextId: nat, articleId: nat, userId: int, emoji: string)
    requires forall k :: 0 <= k < |rows| ==> rows[k].id < nextId
    requires DistinctKeys(rows, ReactionId)
    requires CountWhere(rows, SameReaction(articleId, userId, emoji)) == 1
    ensures var s1 := Toggle(rows, nextId, articleId, userId, emoji, Delivered);
            var s2 := Toggle(s1.rows, s1.nextId, articleId, userId, emoji, Delivered);
            && s2.rows == DeleteReaction(rows, Existing(rows, articleId, userId, emoji, Delivered).value.id)
                          + [Reaction(nextId, articleId, userId, emoji)]
            && CountWhere(s2.rows, SameReaction(articleId, userId, emoji)) == 1
  {
    var p := SameReaction(articleId, userId, emoji);
    var prior := Filter(rows, p)[0];
    var rest := DeleteReaction(rows, prior.id);
    FilterNested(rows, IdIsNot(prior.id), p, (r: Reaction) => r.id != prior.id && p(r));
    OnlyMatchHasItsId(rows, p, prior);
    assert Filter(rest, p) == [];
    FilterAppend(rest, Reaction(nextId, articleId, userId, emoji), p);
  }

  /** When exactly one row satisfies `p` and ids are distinct, dropping that row's id
      leaves no row satisfying `p`. */
  lemma {:induction false} OnlyMatchHasItsId(rows: seq<Reaction>, p: Reaction -> bool, m: Reaction)
    requires DistinctKeys(rows, ReactionId)
    requires Filter(rows, p) == [m]
    ensures Filter(rows, (r: Reaction) => r.id != m.id && p(r)) == []
  {
    var q := (r: Reaction) => r.id != m.id && p(r);
    if rows != [] {
      assert DistinctKeys(rows[1..], ReactionId);
      if p(rows[0]) {
        assert rows[0] == m;
        FilterNone(rows[1..], p);
        forall k | 0 <= k < |rows[1..]| ensures !q(rows[1..][k]) {
          assert rows[1..][k] in Filter(rows[1..], p) || !p(rows[1..][k]);
        }
        FilterNone(rows[1..], q);
      } else {
        OnlyMatchHasItsId(rows[1..], p, m);
      }
    }
  }

  /**
   * Switching from `from` to `to` (retract, then add): when the user had exactly
   * one reaction on the article, with `from`, afterwards the user has exactly one,
   * with `to`.
   */
  lemma SwitchLeavesOneRow(rows: seq<Reaction>, nextId: nat, articleId: nat, userId: int, from: string, to: string)
    requires from != to
    requires |Filter(rows, ReactionOf(articleId, userId))| == 1
    requires Filter(rows, ReactionOf(articleId, userId))[0].emoji == from
    ensures var s1 := Toggle(rows, nextId, articleId, userId, from, Delivered);
            var s2 := Toggle(s1.rows, s1.nextId, articleId, userId, to, Delivered);
            Filter(s2.rows, ReactionOf(articleId, userId)) == [Reaction(s1.nextId, articleId, userId, to)]
  {
    var pair := ReactionOf(articleId, userId);
    var mine := Filter(rows, pair);
    var m := mine[0];
    assert mine == [m];
    // The lookup for `from` finds m.
    FilterNested(rows, pair, HasEmoji(from), SameReaction(articleId, userId, from));
    assert Filter(mine, HasEmoji(from)) == [m] by {
      assert mine[1..] == [];
    }
    var s1 := Toggle(rows, nextId, articleId, userId, from, Delivered);
    assert s1.rows == DeleteReaction(rows, m.id) && s1.nextId == nextId;
    // After the deletion the user has no row on the article.
    var both := (r: Reaction) => r.id != m.id && pair(r);
    FilterNested(rows, IdIsNot(m.id), pair, both);
    FilterNested(rows, pair, IdIsNot(m.id), both);
    assert Filter(mine, IdIsNot(m.id)) == [] by {
      assert mine[1..] == [];
    }
    assert Filter(s1.rows, pair) == [];
    // So the lookup for `to` finds nothing and inserts.
    FilterNested(s1.rows, pair, HasEmoji(to), SameReaction(articleId, userId, to));
    var added := Reaction(nextId, articleId, userId, to);
    FilterAppend(s1.rows, added, pair);
  }

  // ---------------------------------------------------------------- the store

  /** The outcomes of the two round trips of `toggleReaction`: the lookup and the write. */
  datatype ToggleNet = ToggleNet(lookup: Transport, write: Transport)

  /** The remote tables, with the service's id counter. Rows are kept in insertion order. */
  class Store {
    var profiles: seq<UserProfile>
    var articles: seq<Article>
    var comments: seq<Comment>
    var reactions: seq<Reaction>
    var nextId: nat

    /** Primary keys are unique and every generated id is below the counter. */
    ghost predicate Valid()
      reads this
    {
      && DistinctKeys(profiles, ProfileId)
      && DistinctKeys(articles, ArticleId)
      && DistinctKeys(comments, CommentId)
      && DistinctKeys(reactions, ReactionId)
      && (forall k :: 0 <= k < |articles| ==> articles[k].id < nextId)
      && (forall k :: 0 <= k < |comments| ==> comments[k].id < nextId)
      && (forall k :: 0 <= k < |reactions| ==> reactions[k].id < nextId)
    }

    constructor ()
      ensures Valid()
      ensures profiles == [] && articles == [] && comments == [] && reactions == []
    {
      profiles, articles, comments, reactions := [], [], [], [];
      nextId := 0;
    }

    /** `getOrCreateUserProfile` */
    method GetOrCreateUserProfile(tg: TelegramUser, lookup: Transport, insert: Transport, now: int)
      returns (r: Result<UserProfile>)
      requires Valid()
      modifies this`profiles
      ensures Valid()
      ensures lookup.Failed? ==> r == Err(lookup.thrown) && profiles == old(profiles)
      ensures lookup.Delivered? && FindProfile(old(profiles), tg.id).Some? ==>
        r == Ok(FindProfile(old(profiles), tg.id).value) && profiles == old(profiles)
      ensures lookup.Delivered? && FindProfile(old(profiles), tg.id).None? && insert.Failed? ==>
        r == Err(insert.thrown) && profiles == old(profiles)
      ensures lookup.Delivered? && FindProfile(old(profiles), tg.id).None? && insert.Delivered? ==>
        && profiles == old(profiles) + [NewProfile(tg, now)]
        && r == Ok(NewProfile(tg, now))
        && r.value.id == tg.id && r.value.role == Some(User) && r.value.username != ""
      ensures r.Ok? ==> FindProfile(profiles, tg.id) == Some(r.value)
    {
      if lookup.Failed? {
        return Err(lookup.thrown);
      }
      var found := FindProfile(profiles, tg.id);
      if found.None? {
        if insert.Failed? {
          return Err(insert.thrown);
        }
        var p := NewProfile(tg, now);
        FindAppended(profiles, ProfileId, p);
        profiles := profiles + [p];
        return Ok(p);
      }
      return Ok(found.value);
    }

    /** `getArticles(limit = 20, offset = 0)` */
    method GetArticles(net: Transport, limit: nat := 20, offset: nat := 0) returns (r: Result<seq<Listed>>)
      ensures net.Failed? ==> r == Err(net.thrown)
      ensures net.Delivered? ==> r == Ok(ArticlesPage(articles, comments, reactions, limit, offset))
    {
      if net.Failed? {
        return Err(net.thrown);
      }
      return Ok(ArticlesPage(articles, comments, reactions, limit, offset));
    }

    /**
     * `getArticleById`: the article with this id, published or not; a missing
     * row makes `.single()` fail.
     */
    method GetArticleById(id: nat, net: Transport) returns (r: Result<Article>)
      ensures net.Failed? ==> r == Err(net.thrown)
      ensures net.Delivered? && FindArticle(articles, id).None? ==> r == Err(NoRows)
      ensures r.Ok? ==> r.value in articles && r.value.id == id
      ensures net.Delivered? && FindArticle(articles, id).Some? ==> r.Ok?
    {
      if net.Failed? {
        return Err(net.thrown);
      }
      var found := FindArticle(articles, id);
      if found.None? {
        return Err(NoRows);
      }
      return Ok(found.value);
    }

    /** `createArticle` */
    method CreateArticle(title: string, content: string, authorId: int, net: Transport, now: int)
      returns (r: Result<Article>)
      requires Valid()
      modifies this`articles, this`nextId
      ensures Valid()
      ensures net.Failed? ==> r == Err(net.thrown) && articles == old(articles) && nextId == old(nextId)
      ensures net.Delivered? ==>
        && r == Ok(Draft(old(nextId), title, content, authorId, now))
        && articles == old(articles) + [r.value]
        && nextId == old(nextId) + 1
      ensures r.Ok? ==> !r.value.isPublished && r.value.title == title
                        && r.value.content == content && r.value.authorId == authorId
    {
      if net.Failed? {
        return Err(net.thrown);
      }
      var a := Draft(nextId, title, content, authorId, now);
      articles := articles + [a];
      nextId := nextId + 1;
      return Ok(a);
    }

    /** `updateArticle` */
    method UpdateArticle(id: nat, patch: ArticlePatch, net: Transport, now: int)
      returns (r: Result<Article>)
      requires Valid()
      modifies this`articles
      ensures Valid()
      ensures net.Failed? ==> r == Err(net.thrown) && articles == old(articles)
      ensures net.Delivered? && FindArticle(old(articles), id).None? ==>
        r == Err(NoRows) && articles == old(articles)
      ensures net.Delivered? && FindArticle(old(articles), id).Some? ==>
        && articles == PatchRows(old(articles), id, patch, now)
        && r == Ok(ApplyPatch(FindArticle(old(articles), id).value, patch, now))
    {
      if net.Failed? {
        return Err(net.thrown);
      }
      var found := FindArticle(articles, id);
      if found.None? {
        return Err(NoRows);
      }
      articles := PatchRows(articles, id, patch, now);
      return Ok(ApplyPatch(found.value, patch, now));
    }

    /** `publishArticle` */
    method PublishArticle(id: nat, net: Transport, now: int) returns (r: Result<Article>)
      requires Valid()
      modifies this`articles
      ensures Valid()
      ensures net.Failed? ==> r == Err(net.thrown) && articles == old(articles)
      ensures net.Delivered? && FindArticle(old(articles), id).None? ==>
        r == Err(NoRows) && articles == old(articles)
      ensures net.Delivered? && FindArticle(old(articles), id).Some? ==>
        && articles == PatchRows(old(articles), id, PublishPatch, now)
        && r.Ok? && r.value.isPublished && r.value.id == id
    {
      r := UpdateArticle(id, PublishPatch, net, now);
    }

    /** `addComment` */
    method AddComment(articleId: nat, authorId: int, content: string, net: Transport, now: int)
      returns (r: Result<Comment>)
      requires Valid()
      modifies this`comments, this`nextId
      ensures Valid()
      ensures net.Failed? ==> r == Err(net.thrown) && comments == old(comments) && nextId == old(nextId)
      ensures net.Delivered? ==>
        && r == Ok(Comment(old(nextId), articleId, authorId, content, now))
        && comments == old(comments) + [r.value]
        && nextId == old(nextId) + 1
    {
      if net.Failed? {
        return Err(net.thrown);
      }
      var c := Comment(nextId, articleId, authorId, content, now);
      comments := comments + [c];
      nextId := nextId + 1;
      return Ok(c);
    }

    /** `toggleReaction(articleId, userId, emoji = '👍')` */
    method ToggleReaction(articleId: nat, userId: int, net: ToggleNet, emoji: string := DefaultEmoji)
      returns (r: Result<Option<Reaction>>)
      requires Valid()
      modifies this`reactions, this`nextId
      ensures Valid()
      ensures net.write.Failed? ==>
        r == Err(net.write.thrown) && reactions == old(reactions) && nextId == old(nextId)
      ensures net.write.Delivered? ==>
        var s := Toggle(old(reactions), old(nextId), articleId, userId, emoji, net.lookup);
        r == Ok(s.returned) && reactions == s.rows && nextId == s.nextId
    {
      var existing := Existing(reactions, articleId, userId, emoji, net.lookup);
      if existing.Some? {
        if net.write.Failed? {
          return Err(net.write.thrown);
        }
        FilterKeepsDistinctKeys(reactions, IdIsNot(existing.value.id), ReactionId);
        reactions := DeleteReaction(reactions, existing.value.id);
        return Ok(None);
      }
      if net.write.Failed? {
        return Err(net.write.thrown);
      }
      var added := Reaction(nextId, articleId, userId, emoji);
      reactions := reactions + [added];
      nextId := nextId + 1;
      return Ok(Some(added));
    }

    /** `getUserRole` */
    method GetUserRole(userId: int, net: Transport) returns (r: Result<Role>)
      ensures net.Failed? ==> r == Err(net.thrown)
      ensures net.Delivered? && FindProfile(profiles, userId).None? ==> r == Err(NoRows)
      ensures net.Delivered? && FindProfile(profiles, userId).Some? ==>
        r == Ok(EffectiveRole(FindProfile(profiles, userId).value.role))
      ensures r.Ok? && FindProfile(profiles, userId).value.role.None? ==> r.value == User
    {
      if net.Failed? {
        return Err(net.thrown);
      }
      var found := FindProfile(profiles, userId);
      if found.None? {
        return Err(NoRows);
      }
      return Ok(EffectiveRole(found.value.role));
    }

    /** `setUserRole` */
    method SetUserRole(userId: int, role: Role, net: Transport) returns (r: Result<UserProfile>)
      requires Valid()
      modifies this`profiles
      ensures Valid()
      ensures net.Failed? ==> r == Err(net.thrown) && profiles == old(profiles)
      ensures net.Delivered? && FindProfile(old(profiles), userId).None? ==>
        r == Err(NoRows) && profiles == old(profiles)
      ensures net.Delivered? && FindProfile(old(profiles), userId).Some? ==>
        && profiles == SetRole(old(profiles), userId, role)
        && r == Ok(FindProfile(old(profiles), userId).value.(role := Some(role)))
    {
      if net.Failed? {
        return Err(net.thrown);
      }
      var found := FindProfile(profiles, userId);
      if found.None? {
        return Err(NoRows);
      }
      profiles := SetRole(profiles, userId, role);
      return Ok(found.value.(role := Some(role)));
    }

    /** `findUserByUsernameOrId` */
    method FindUserByUsernameOrId(query: string, net: Transport) returns (r: Result<seq<UserProfile>>)
      ensures net.Failed? ==> r == Err(net.thrown)
      ensures net.Delivered? ==> r == Ok(Take(Filter(profiles, QueryMatcher(query)), SearchLimit))
      ensures r.Ok? ==> |r.value| <= SearchLimit && forall p :: p in r.value ==> p in profiles
      ensures r.Ok? && IsAllDigits(query) ==> forall p :: p in r.value ==> p.id == ParseDecimal(query)
      ensures r.Ok? && !IsAllDigits(query) ==> forall p :: p in r.value ==> ILikeContains(p.username, query)
    {
      if net.Failed? {
        return Err(net.thrown);
      }
      var matching := Filter(profiles, QueryMatcher(query));
      var taken := Take(matching, SearchLimit);
      assert forall p :: p in taken ==> p in matching;
      return Ok(taken);
    }
  }
}
