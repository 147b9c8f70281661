/**
 * `src/components/ReactionButtons.tsx`: the per-emoji counters of one article,
 * the viewer's current emoji, and the retract-then-add protocol that switches it.
 */
module ReactionButtons {
  import opened Common
  import opened Ordering
  import opened Schema
  import opened Supabase

  /** `EMOJI_OPTIONS`: thumbs up, red heart, tears of joy, open mouth, crying, pouting. */
  const EmojiOptions: seq<string> := [
    "\U{1F44D}", "\U{2764}\U{FE0F}", "\U{1F602}", "\U{1F62E}", "\U{1F622}", "\U{1F621}"]

  /** The buttons offer six distinct emojis, the first of them the toggle's default. */
  lemma EmojiOptionsDistinct()
    ensures |EmojiOptions| == 6 && EmojiOptions[0] == DefaultEmoji
    ensures forall i, j :: 0 <= i < j < |EmojiOptions| ==> EmojiOptions[i] != EmojiOptions[j]
  {
  }

  /** `reactionCounts[e] = (reactionCounts[e] || 0) + 1` */
  function Bump(counts: map<string, nat>, e: string): map<string, nat>
  {
    counts[e := (if e in counts then counts[e] else 0) + 1]
  }

  /** The dictionary the `forEach` of `fetchReactions` builds, row by row. */
  function Tally(rows: seq<Reaction>): map<string, nat>
  {
    if rows == [] then map[]
    else Bump(Tally(rows[..|rows| - 1]), rows[|rows| - 1].emoji)
  }

  /** The emoji of the last row by `userId`, the value `currentUserReaction` ends with. */
  function LastEmojiOf(rows: seq<Reaction>, userId: int): Option<string>
  {
    if rows == [] then None
    else if rows[|rows| - 1].userId == userId then Some(rows[|rows| - 1].emoji)
    else LastEmojiOf(rows[..|rows| - 1], userId)
  }

  /** How many rows carry `emoji`. */
  function EmojiCount(rows: seq<Reaction>, emoji: string): nat
  {
    CountWhere(rows, HasEmoji(emoji))
  }

  /** `reactions[emoji] || 0`: the number a button shows. */
  function Displayed(counts: map<string, nat>, emoji: string): nat
  {
    if emoji in counts then counts[emoji] else 0
  }

  /** Some key of a non-empty dictionary. */
  ghost function PickKey(m: map<string, nat>): (k: string)
    requires m != map[]
    ensures k in m
  {
    var k :| k in m; k
  }

  lemma RemoveKeyCard(m: map<string, nat>, k: string)
    requires k in m
    ensures |m - {k}| == |m| - 1
  {
    assert (m - {k}).Keys == m.Keys - {k};
  }

  /** The sum of all counters. */
  ghost function Total(m: map<string, nat>): nat
    decreases |m|
  {
    if m == map[] then 0
    else
      var k := PickKey(m);
      RemoveKeyCard(m, k);
      m[k] + Total(m - {k})
  }

  /** The sum can be split at any key. */
  lemma {:induction false} TotalAt(m: map<string, nat>, k: string)
    requires k in m
    ensures Total(m) == m[k] + Total(m - {k})
    decreases |m|
  {
    var j := PickKey(m);
    if j != k {
      RemoveKeyCard(m, j);
      RemoveKeyCard(m, k);
      TotalAt(m - {j}, k);
      TotalAt(m - {k}, j);
      assert m - {j} - {k} == m - {k} - {j};
    }
  }

  /** One more row adds one to the sum. */
  lemma TotalBump(m: map<string, nat>, e: string)
    ensures Total(Bump(m, e)) == Total(m) + 1
  {
    var b := Bump(m, e);
    TotalAt(b, e);
    assert b - {e} == m - {e};
    if e in m {
      TotalAt(m, e);
    } else {
      assert m - {e} == m;
    }
  }

  /** One more row adds one to the count of its own emoji and leaves the others alone. */
  lemma EmojiCountAppend(rows: seq<Reaction>, r: Reaction, e: string)
    ensures EmojiCount(rows + [r], e) == EmojiCount(rows, e) + (if r.emoji == e then 1 else 0)
  {
    FilterAppend(rows, r, HasEmoji(e));
  }

  /**
   * After the aggregation every emoji present in the rows has a counter equal to
   * its number of rows, and an emoji absent from them has no key (a button shows 0).
   */
  lemma {:induction false} TallyCounts(rows: seq<Reaction>)
    ensures forall e :: e in Tally(rows) <==> EmojiCount(rows, e) > 0
    ensures forall e :: Displayed(Tally(rows), e) == EmojiCount(rows, e)
  {
    if rows != [] {
      var init, last := rows[..|rows| - 1], rows[|rows| - 1];
      assert rows == init + [last];
      TallyCounts(init);
      forall e ensures (e in Tally(rows) <==> EmojiCount(rows, e) > 0) && Displayed(Tally(rows), e) == EmojiCount(rows, e) {
        EmojiCountAppend(init, last, e);
      }
    }
  }

  /** The counters add up to the number of rows. */
  lemma {:induction false} TallyTotal(rows: seq<Reaction>)
    ensures Total(Tally(rows)) == |rows|
  {
    if rows != [] {
      TallyTotal(rows[..|rows| - 1]);
      TotalBump(Tally(rows[..|rows| - 1]), rows[|rows| - 1].emoji);
    }
  }

  /** The viewer's emoji is that of their last row, and there is none exactly when they have no row. */
  lemma {:induction false} LastEmojiOfSpec(rows: seq<Reaction>, userId: int)
    ensures LastEmojiOf(rows, userId).None? <==> forall k :: 0 <= k < |rows| ==> rows[k].userId != userId
    ensures LastEmojiOf(rows, userId).Some? ==>
      exists k :: 0 <= k < |rows| && rows[k].userId == userId && rows[k].emoji == LastEmojiOf(rows, userId).value
                  && forall j :: k < j < |rows| ==> rows[j].userId != userId
  {
    if rows != [] {
      var init := rows[..|rows| - 1];
      LastEmojiOfSpec(init, userId);
      if rows[|rows| - 1].userId != userId && LastEmojiOf(init, userId).Some? {
        var k :| 0 <= k < |init| && init[k].userId == userId && init[k].emoji == LastEmojiOf(init, userId).value
                 && forall j :: k < j < |init| ==> init[j].userId != userId;
        assert rows[k] == init[k];
      }
    }
  }

  /** The `forEach` of `fetchReactions` over the fetched rows. */
  method Aggregate(rows: seq<Reaction>, userId: int) returns (counts: map<string, nat>, current: Option<string>)
    ensures counts == Tally(rows) && current == LastEmojiOf(rows, userId)
    ensures forall e :: Displayed(counts, e) == EmojiCount(rows, e)
    ensures forall e :: e in counts <==> EmojiCount(rows, e) > 0
    ensures Total(counts) == |rows|
    ensures current.None? <==> forall k :: 0 <= k < |rows| ==> rows[k].userId != userId
  {
    counts, current := map[], None;
    var i := 0;
    while i < |rows|
      invariant 0 <= i <= |rows|
      invariant counts == Tally(rows[..i])
      invariant current == LastEmojiOf(rows[..i], userId)
    {
      var r := rows[i];
      counts := counts[r.emoji := (if r.emoji in counts then counts[r.emoji] else 0) + 1];
      if r.userId == userId {
        current := Some(r.emoji);
      }
      i := i + 1;
      assert rows[..i][..i - 1] == rows[..i - 1];
    }
    assert rows[..|rows|] == rows;
    TallyCounts(rows);
    TallyTotal(rows);
    LastEmojiOfSpec(rows, userId);
  }

  /** `if (userReaction)`: a current emoji that is present and not the empty string. */
  predicate Truthy(s: Option<string>)
  {
    s.Some? && s.value != ""
  }

  /** The state of the reaction bar of one article as seen by one user. */
  class ReactionBar {
    const articleId: nat
    const userId: int
    var reactions: map<string, nat>
    var userReaction: Option<string>

    constructor (articleId: nat, userId: int)
      ensures this.articleId == articleId && this.userId == userId
      ensures reactions == map[] && userReaction == None
    {
      this.articleId, this.userId := articleId, userId;
      reactions, userReaction := map[], None;
    }

    /** `fetchReactions`: recount the article's rows; a failed query changes nothing. */
    method FetchReactions(store: Store, net: Transport)
      modifies this
      ensures net.Failed? ==> reactions == old(reactions) && userReaction == old(userReaction)
      ensures net.Delivered? ==>
        var rows := Filter(store.reactions, ReactionOn(articleId));
        && reactions == Tally(rows)
        && userReaction == LastEmojiOf(rows, userId)
        && (forall e :: Displayed(reactions, e) == EmojiCount(rows, e))
    {
      if net.Failed? {
        return;
      }
      var rows := Filter(store.reactions, ReactionOn(articleId));
      var counts, current := Aggregate(rows, userId);
      reactions, userReaction := counts, current;
    }

    /**
     * `handleReaction(emoji)`: retract when `emoji` is the current one; otherwise
     * retract the current one, when there is a non-empty one, and then add
     * `emoji`. `first` and `second` are the round trips of the first and second
     * toggle. `refetch` tells whether a refetch is triggered; a throwing toggle
     * stops the handler before `userReaction` is set, whatever the toggles before
     * it already did.
     */
    method HandleReaction(store: Store, emoji: string, first: ToggleNet, second: ToggleNet)
      returns (refetch: bool)
      requires store.Valid()
      modifies this`userReaction, store`reactions, store`nextId
      ensures store.Valid()
      ensures old(userReaction) == Some(emoji) || !Truthy(old(userReaction)) ==>
        var s := Toggle(old(store.reactions), old(store.nextId), articleId, userId, emoji, first.lookup);
        && (refetch <==> first.write.Delivered?)
        && (refetch ==> store.reactions == s.rows && store.nextId == s.nextId
                        && userReaction == (if old(userReaction) == Some(emoji) then None else Some(emoji)))
        && (!refetch ==> store.reactions == old(store.reactions) && store.nextId == old(store.nextId)
                         && userReaction == old(userReaction))
      ensures old(userReaction) != Some(emoji) && Truthy(old(userReaction)) ==>
        var s1 := Toggle(old(store.reactions), old(store.nextId), articleId, userId, old(userReaction).value, first.lookup);
        var s2 := Toggle(s1.rows, s1.nextId, articleId, userId, emoji, second.lookup);
        && (refetch <==> first.write.Delivered? && second.write.Delivered?)
        && (first.write.Failed? ==> store.reactions == old(store.reactions) && store.nextId == old(store.nextId))
        && (first.write.Delivered? && second.write.Failed? ==>
              store.reactions == s1.rows && store.nextId == s1.nextId)
        && (refetch ==> store.reactions == s2.rows && store.nextId == s2.nextId && userReaction == Some(emoji))
        && (!refetch ==> userReaction == old(userReaction))
    {
      refetch := false;
      if userReaction == Some(emoji) {
        var r := store.ToggleReaction(articleId, userId, first, emoji);
        if r.Err? {
          return;
        }
        userReaction := None;
      } else {
        var net := first;
        if Truthy(userReaction) {
          var r := store.ToggleReaction(articleId, userId, first, userReaction.value);
          if r.Err? {
            return;
          }
          net := second;
        }
        var r := store.ToggleReaction(articleId, userId, net, emoji);
        if r.Err? {
          return;
        }
        userReaction := Some(emoji);
      }
      refetch := true;
    }
  }
}
