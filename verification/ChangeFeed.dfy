/** The account-scoped change feed: bounded pages cut from a growing log by a
    look-ahead row, and the proof that following the returned cursors misses
    nothing and repeats nothing. */
module ChangeFeed {
  import opened Prelude
  import opened Schema

  predicate Selected(e: ChangeLogEntry, userId: Uuid, after: int) {
    e.userId == userId && e.cursor > after
  }

  /** WHERE user_id = ... AND seq > after ORDER BY seq. Entries are kept in
      insertion order, which is cursor order in a numbered log. */
  function UserLog(log: seq<ChangeLogEntry>, userId: Uuid, after: int): seq<ChangeLogEntry> {
    if log == [] then []
    else
      UserLog(log[..|log| - 1], userId, after) +
      (if Selected(log[|log| - 1], userId, after) then [log[|log| - 1]] else [])
  }

  lemma AppendUserLog(log: seq<ChangeLogEntry>, e: ChangeLogEntry, userId: Uuid, after: int)
    ensures UserLog(log + [e], userId, after) ==
      UserLog(log, userId, after) + (if Selected(e, userId, after) then [e] else [])
  {
    assert (log + [e])[..|log|] == log;
  }

  lemma {:induction false} UserLogMembers(log: seq<ChangeLogEntry>, userId: Uuid, after: int)
    ensures forall e | e in UserLog(log, userId, after) :: e in log && Selected(e, userId, after)
  {
    if log != [] {
      UserLogMembers(log[..|log| - 1], userId, after);
    }
  }

  predicate Numbered(log: seq<ChangeLogEntry>) {
    forall i | 0 <= i < |log| :: log[i].cursor == i + 1
  }

  // ----- One page -----

  datatype Page = Page(changes: seq<ChangeLogEntry>, nextCursor: int, hasMore: bool)

  /** The page that ListChanges cuts: at most `max` entries, the cursor of the
      last one returned, and whether a look-ahead row was seen. */
  function PageOf(log: seq<ChangeLogEntry>, userId: Uuid, after: int, max: nat): Page {
    var all := UserLog(log, userId, after);
    var changes := if |all| > max then all[..max] else all;
    Page(changes, if changes == [] then after else changes[|changes| - 1].cursor, |all| > max)
  }

  /** Cursors of an account's entries ascend strictly, and a later cursor
      selects exactly the entries behind it. */
  lemma {:induction false} CutAt(log: seq<ChangeLogEntry>, userId: Uuid, after: int, k: nat)
    requires Numbered(log) && k < |UserLog(log, userId, after)|
    ensures var all := UserLog(log, userId, after);
      && after < all[k].cursor <= |log|
      && (forall j | 0 <= j < k :: all[j].cursor < all[k].cursor)
      && UserLog(log, userId, all[k].cursor) == all[k + 1..]
  {
    var n := |log| - 1;
    var front, e := log[..n], log[n];
    var before := UserLog(front, userId, after);
    UserLogMembers(front, userId, after);
    if k < |before| {
      CutAt(front, userId, after, k);
    } else {
      assert UserLog(log, userId, after) == before + [e];
      forall j | 0 <= j < k ensures before[j].cursor <= n {
        assert before[j] in front;
      }
      BeyondEnd(front, userId, e.cursor);
    }
  }

  lemma {:induction false} BeyondEnd(log: seq<ChangeLogEntry>, userId: Uuid, after: int)
    requires Numbered(log) && after >= |log|
    ensures UserLog(log, userId, after) == []
  {
    if log != [] {
      BeyondEnd(log[..|log| - 1], userId, after);
    }
  }

  /** A page and the entries behind its cursor make up everything, and a page
      that is not the last one is full. */
  lemma PageSplits(log: seq<ChangeLogEntry>, userId: Uuid, after: int, max: nat)
    requires Numbered(log) && max > 0
    ensures var page := PageOf(log, userId, after, max);
      && UserLog(log, userId, after) == page.changes + UserLog(log, userId, page.nextCursor)
      && (page.hasMore <==> UserLog(log, userId, page.nextCursor) != [])
      && (page.changes != [] ==> after < page.nextCursor <= |log|)
      && |page.changes| <= max && (page.hasMore ==> |page.changes| == max)
  {
    var all := UserLog(log, userId, after);
    var page := PageOf(log, userId, after, max);
    if page.changes != [] {
      CutAt(log, userId, after, |page.changes| - 1);
    }
  }

  /** The same holds when entries were appended after the page was read. */
  lemma {:induction false} GrowthKeepsSplit(log: seq<ChangeLogEntry>, longer: seq<ChangeLogEntry>, userId: Uuid,
                                            after: int, max: nat)
    requires Numbered(longer) && log <= longer && max > 0
    ensures var page := PageOf(log, userId, after, max);
      UserLog(longer, userId, after) == page.changes + UserLog(longer, userId, page.nextCursor)
  {
    var page := PageOf(log, userId, after, max);
    if log == longer {
      PageSplits(log, userId, after, max);
    } else {
      var front := longer[..|longer| - 1];
      GrowthKeepsSplit(log, front, userId, after, max);
      PageSplits(log, userId, after, max);
      assert page.changes == [] ==> page.nextCursor == after;
    }
  }

  // ----- Following the cursor -----

  /** The logs as they stood at each request, oldest first. */
  predicate Growing(logs: seq<seq<ChangeLogEntry>>) {
    && (forall i | 0 <= i < |logs| :: Numbered(logs[i]))
    && (forall i, j | 0 <= i <= j < |logs| :: logs[i] <= logs[j])
  }

  /** What a client has received, and the cursor it holds, after requesting one
      page from each log in turn. */
  function Follow(logs: seq<seq<ChangeLogEntry>>, userId: Uuid, after: int, max: nat): (seq<ChangeLogEntry>, Page) {
    if logs == [] then ([], Page([], after, true))
    else
      var (received, last) := Follow(logs[..|logs| - 1], userId, after, max);
      var page := PageOf(logs[|logs| - 1], userId, last.nextCursor, max);
      (received + page.changes, page)
  }

  /** While the log grows between requests, what was received plus what lies
      behind the current cursor is always everything past the start. */
  lemma {:induction false} FollowInvariant(logs: seq<seq<ChangeLogEntry>>, userId: Uuid, after: int, max: nat,
                                           now: seq<ChangeLogEntry>)
    requires max > 0 && Numbered(now) && forall i | 0 <= i < |logs| :: logs[i] <= now
    ensures var (received, last) := Follow(logs, userId, after, max);
      UserLog(now, userId, after) == received + UserLog(now, userId, last.nextCursor)
  {
    if logs == [] {
      assert [] + UserLog(now, userId, after) == UserLog(now, userId, after);
    } else {
      var front := logs[..|logs| - 1];
      assert forall i | 0 <= i < |front| :: front[i] == logs[i];
      FollowInvariant(front, userId, after, max, now);
      var (received, last) := Follow(front, userId, after, max);
      GrowthKeepsSplit(logs[|logs| - 1], now, userId, last.nextCursor, max);
    }
  }

  /** Requesting pages until `has_more` is false returns every entry past the
      start that was visible at the last request, once and in order. */
  lemma FeedComplete(logs: seq<seq<ChangeLogEntry>>, userId: Uuid, after: int, max: nat)
    requires Growing(logs) && max > 0 && logs != []
    requires !Follow(logs, userId, after, max).1.hasMore
    ensures Follow(logs, userId, after, max).0 == UserLog(logs[|logs| - 1], userId, after)
  {
    var front, now := logs[..|logs| - 1], logs[|logs| - 1];
    FollowInvariant(logs, userId, after, max, now);
    var (_, last) := Follow(front, userId, after, max);
    PageSplits(now, userId, last.nextCursor, max);
  }

  // ----- Page validity -----

  /** The server's own response check on the change page, and the client's
      check against the cursor it sent. */
  predicate AcceptablePage(page: Page, requested: int, max: nat) {
    && |page.changes| <= max
    && (forall i | 0 <= i < |page.changes| :: page.changes[i].cursor > 0)
    && (forall i, j | 0 <= i < j < |page.changes| :: page.changes[i].cursor < page.changes[j].cursor)
    && (if page.changes == [] then page.nextCursor == requested && !page.hasMore
        else
          page.nextCursor == page.changes[|page.changes| - 1].cursor
          && page.nextCursor > requested && page.changes[0].cursor > requested)
  }

  /** Every page of a numbered log passes both checks. */
  lemma PagesAcceptable(log: seq<ChangeLogEntry>, userId: Uuid, after: int, max: nat)
    requires Numbered(log) && max > 0 && after >= 0
    ensures AcceptablePage(PageOf(log, userId, after, max), after, max)
  {
    var page := PageOf(log, userId, after, max);
    PageSplits(log, userId, after, max);
    forall k | 0 <= k < |page.changes|
      ensures page.changes[k].cursor > after && forall j | 0 <= j < k :: page.changes[j].cursor < page.changes[k].cursor
    {
      CutAt(log, userId, after, k);
    }
  }
}
