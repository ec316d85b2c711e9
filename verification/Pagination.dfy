/** Bounded pagination over a channel whose history may grow between any two requests. */
module Pagination {
  import opened Basics

  /** The message ids of a channel, oldest first; later histories extend earlier ones. */
  type History = seq<int>

  datatype Cursor = Cursor(lastMessageId: Option<int>, nextOffsetId: Option<int>)

  datatype Limits = Limits(maxPages: int, maxMessages: int, pageSize: int)

  ghost predicate Increasing(h: History) {
    forall i, j | 0 <= i < j < |h| :: h[i] < h[j]
  }

  /** `history(t)` is what the server holds when request number `t` arrives. */
  ghost predicate AppendOnly(history: nat -> History) {
    (forall t :: Increasing(history(t))) && (forall s, t :: Extended(history, s, t))
  }

  ghost predicate Extended(history: nat -> History, s: nat, t: nat) {
    s <= t ==> history(s) <= history(t)
  }

  /** How many ids of `h` are below the offset; all of them without one. */
  function CountBelow(h: History, offset: Option<int>): (n: nat)
    ensures n <= |h|
  {
    if h == [] then 0
    else if offset.None? || h[|h| - 1] < offset.value then |h|
    else CountBelow(h[..|h| - 1], offset)
  }

  function Below(h: History, offset: Option<int>): History {
    h[..CountBelow(h, offset)]
  }

  /** The `k` newest ids of `h`, newest first. */
  function Newest(h: History, k: nat): seq<int>
    requires k <= |h|
  {
    seq(k, i requires 0 <= i < k => h[|h| - 1 - i])
  }

  /** The server's answer to one request. */
  function GetMessages(h: History, limit: int, offset: Option<int>): seq<int> {
    var visible := Below(h, offset);
    Newest(visible, if limit <= 0 then 0 else if limit < |visible| then limit else |visible|)
  }

  /** The largest and the smallest id of a batch. */
  method Extremes(ids: seq<int>) returns (hi: int, lo: int)
    requires ids != []
    ensures forall k | 0 <= k < |ids| :: lo <= ids[k] <= hi
    ensures (exists k :: 0 <= k < |ids| && ids[k] == hi) && (exists k :: 0 <= k < |ids| && ids[k] == lo)
  {
    hi, lo := ids[0], ids[0];
    for n := 1 to |ids|
      invariant forall k | 0 <= k < n :: lo <= ids[k] <= hi
      invariant (exists k :: 0 <= k < n && ids[k] == hi) && (exists k :: 0 <= k < n && ids[k] == lo)
    {
      hi := if ids[n] > hi then ids[n] else hi;
      lo := if ids[n] < lo then ids[n] else lo;
    }
  }

  // ----- what an offset selects -----

  lemma {:induction false} CountBelowIs(h: History, offset: int, n: nat)
    requires Increasing(h) && n <= |h|
    requires forall i | 0 <= i < n :: h[i] < offset
    requires forall i | n <= i < |h| :: h[i] >= offset
    ensures CountBelow(h, Some(offset)) == n
    decreases |h|
  {
    if h != [] && h[|h| - 1] >= offset {
      CountBelowIs(h[..|h| - 1], offset, n);
    }
  }

  /** The offset taken from the history selects the same ids in every later history. */
  lemma OffsetIsStable(h: History, later: History, n: nat)
    requires Increasing(h) && Increasing(later) && h <= later && n < |h|
    ensures Below(later, Some(h[n])) == h[..n]
  {
    CountBelowIs(later, h[n], n);
    PrefixOfPrefix(h, later, n);
  }

  lemma PrefixOfPrefix(h: History, later: History, n: nat)
    requires h <= later && n <= |h|
    ensures later[..n] == h[..n]
  {
  }

  lemma {:induction false} BelowIsAscending(h: History, offset: Option<int>)
    requires Increasing(h)
    ensures Increasing(Below(h, offset))
  {
  }

  /** The newest ids of an ascending history come in strictly descending order. */
  lemma NewestDescends(h: History, k: nat)
    requires Increasing(h) && k <= |h|
    ensures forall i, j | 0 <= i < j < k :: Newest(h, k)[i] > Newest(h, k)[j]
  {
  }

  lemma NewestSplits(h: History, k: nat, j: nat)
    requires k + j <= |h|
    ensures Newest(h, k) + Newest(h[..|h| - k], j) == Newest(h, k + j)
  {
  }

  // ----- one poll -----

  /** The highest id seen: the stored one or the first, newest, message of the poll. */
  function LatestOf(stored: Option<int>, messages: seq<int>): Option<int> {
    if messages == [] || (stored.Some? && stored.value >= messages[0]) then stored else Some(messages[0])
  }

  /** The offset after returning `messages`: the oldest of them, or the stored one. */
  function OffsetAfter(stored: Option<int>, messages: seq<int>): Option<int> {
    if messages == [] then stored else Some(messages[|messages| - 1])
  }

  /** What one poll returns, against `visible`, the ids below its offset at its first request. */
  ghost predicate PollReport(limits: Limits, cursor: Cursor, visible: History,
                             messages: seq<int>, next: Cursor, requests: nat) {
    && |messages| <= |visible| && messages == Newest(visible, |messages|)
    && next.lastMessageId == LatestOf(cursor.lastMessageId, messages)
    && if limits.maxPages <= 0 || limits.maxMessages <= 0 then
         messages == [] && requests == 0 && next.nextOffsetId == cursor.nextOffsetId
       else
         && 1 <= requests <= limits.maxPages && |messages| <= limits.maxMessages
         && (limits.pageSize < 1 ==> messages == [] && next.nextOffsetId.None? && requests == 1)
         && (next.nextOffsetId.None? ==> (|messages| == |visible| <==> limits.pageSize >= 1 || visible == []))
         && (next.nextOffsetId.Some? ==>
               && messages != [] && next.nextOffsetId == Some(messages[|messages| - 1])
               && (requests == limits.maxPages || |messages| == limits.maxMessages))
  }

  /** A request in the middle of a poll sees exactly what the poll has not returned yet. */
  lemma NextRequestSees(history: nat -> History, start: nat, t: nat, stored: Option<int>, messages: seq<int>)
    requires AppendOnly(history) && start <= t && (messages == [] ==> t == start)
    requires var visible := Below(history(start), stored);
             |messages| <= |visible| && messages == Newest(visible, |messages|)
    ensures var visible := Below(history(start), stored);
            Below(history(t), OffsetAfter(stored, messages)) == visible[..|visible| - |messages|]
  {
    var h := history(start);
    var visible := Below(h, stored);
    if messages != [] {
      var n := |visible| - |messages|;
      assert Extended(history, start, t);
      OffsetIsStable(h, history(t), n);
      assert h[..n] == visible[..n];
    } else {
      assert visible[..|visible|] == visible;
    }
  }

  lemma HeadAndLast(a: seq<int>, b: seq<int>)
    requires b != []
    ensures (a + b)[|a + b| - 1] == b[|b| - 1] && (a + b)[0] == if a == [] then b[0] else a[0]
  {
  }

  lemma {:induction false} SliceAscends(h: History, n: nat)
    requires Increasing(h) && n <= |h|
    ensures Increasing(h[..n])
  {
  }

  /** The extremes of a returned batch are its ends. */
  lemma BatchEnds(visible: History, taken: nat, batch: seq<int>, hi: int, lo: int)
    requires Increasing(visible) && taken + |batch| <= |visible| &&
             batch == Newest(visible[..|visible| - taken], |batch|)
    requires forall k | 0 <= k < |batch| :: lo <= batch[k] <= hi
    requires (exists k :: 0 <= k < |batch| && batch[k] == hi) && (exists k :: 0 <= k < |batch| && batch[k] == lo)
    ensures batch != [] && hi == batch[0] && lo == batch[|batch| - 1]
    ensures taken > 0 ==> hi < visible[|visible| - 1]
  {
    SliceAscends(visible, |visible| - taken);
    NewestDescends(visible[..|visible| - taken], |batch|);
  }

  /** Appending a batch: its last id is the new offset, and its first only matters in the first batch. */
  lemma BatchAppended(visible: History, messages: seq<int>, batch: seq<int>, stored: Option<int>)
    requires |messages| + |batch| <= |visible| && batch != [] && (messages != [] ==> batch[0] < messages[0])
    requires messages == Newest(visible, |messages|) && batch == Newest(visible[..|visible| - |messages|], |batch|)
    ensures messages + batch == Newest(visible, |messages| + |batch|)
    ensures OffsetAfter(stored, messages + batch) == Some(batch[|batch| - 1])
    ensures var latest := LatestOf(stored, messages);
            LatestOf(stored, messages + batch) == if latest.None? || batch[0] > latest.value then Some(batch[0])
                else latest
  {
    NewestSplits(visible, |messages|, |batch|);
    HeadAndLast(messages, batch);
  }

  /** What a page adds to the collected ids, the latest id and the offset. */
  lemma PageAdds(visible: History, messages: seq<int>, batch: seq<int>, cursor: Cursor, latest: Option<int>, hi: int,
                 lo: int)
    requires Increasing(visible) && |messages| + |batch| <= |visible| &&
             latest == LatestOf(cursor.lastMessageId, messages)
    requires messages == Newest(visible, |messages|) && batch == Newest(visible[..|visible| - |messages|], |batch|)
    requires forall k | 0 <= k < |batch| :: lo <= batch[k] <= hi
    requires (exists k :: 0 <= k < |batch| && batch[k] == hi) && (exists k :: 0 <= k < |batch| && batch[k] == lo)
    ensures messages + batch == Newest(visible, |messages| + |batch|)
    ensures LatestOf(cursor.lastMessageId, messages + batch) == if latest.None? || hi > latest.value then Some(hi)
            else latest
    ensures OffsetAfter(cursor.nextOffsetId, messages + batch) == Some(lo)
  {
    BatchEnds(visible, |messages|, batch, hi, lo);
    BatchAppended(visible, messages, batch, cursor.lastMessageId);
  }

  /** One request of a poll: the next newest unseen ids, as many as fit the page. */
  method RequestPage(history: nat -> History, start: nat, t: nat, cursor: Cursor, messages: seq<int>, pageLimit: int,
                     ghost visible: History)
    returns (batch: seq<int>)
    requires AppendOnly(history) && start <= t && (messages == [] ==> t == start)
    requires visible == Below(history(start), cursor.nextOffsetId)
    requires |messages| <= |visible| && messages == Newest(visible, |messages|)
    ensures |messages| + |batch| <= |visible| && batch == Newest(visible[..|visible| - |messages|], |batch|)
    ensures |batch| <= pageLimit || batch == []
    ensures |batch| < pageLimit ==> |messages| + |batch| == |visible|
    ensures pageLimit <= 0 ==> batch == []
    ensures pageLimit > 0 && batch == [] ==> |messages| == |visible|
  {
    NextRequestSees(history, start, t, cursor.nextOffsetId, messages);
    batch := GetMessages(history(t), pageLimit, OffsetAfter(cursor.nextOffsetId, messages));
  }

  /** One turn of the loop: request a page and add it to what was collected. */
  method TakePage(history: nat -> History, start: nat, t: nat, cursor: Cursor, limits: Limits, messages: seq<int>,
                  latest: Option<int>, ghost visible: History)
    returns (messages': seq<int>, latest': Option<int>, offset: Option<int>, exhausted: bool)
    requires AppendOnly(history) && start <= t && (messages == [] ==> t == start) && |messages| < limits.maxMessages
    requires visible == Below(history(start), cursor.nextOffsetId) && Increasing(visible)
    requires |messages| <= |visible| && messages == Newest(visible, |messages|)
    requires latest == LatestOf(cursor.lastMessageId, messages) && (messages != [] ==> limits.pageSize >= 1)
    ensures |messages'| <= |visible| && messages' == Newest(visible, |messages'|) && |messages'| <= limits.maxMessages
    ensures latest' == LatestOf(cursor.lastMessageId, messages')
    ensures if exhausted then offset.None? &&
            (if limits.pageSize >= 1 then |messages'| == |visible| else messages' == [])
            else limits.pageSize >= 1 && messages' != [] && offset == OffsetAfter(cursor.nextOffsetId, messages')
  {
    var remaining := limits.maxMessages - |messages|;
    var pageLimit := if limits.pageSize < remaining then limits.pageSize else remaining;
    var batch := RequestPage(history, start, t, cursor, messages, pageLimit, visible);
    if batch == [] {
      return messages, latest, None, true;
    }
    var batchMax, batchMin := Extremes(batch);
    PageAdds(visible, messages, batch, cursor, latest, batchMax, batchMin);
    messages' := messages + batch;
    latest' := if latest.None? || batchMax > latest.value then Some(batchMax) else latest;
    exhausted := |batch| < pageLimit;
    offset := if exhausted then None else Some(batchMin);
  }

  /** `fetch_bounded_messages`, with request numbers from `start` on. */
  method FetchBounded(history: nat -> History, start: nat, cursor: Cursor, limits: Limits)
    returns (messages: seq<int>, next: Cursor, requests: nat)
    requires AppendOnly(history)
    ensures PollReport(limits, cursor, Below(history(start), cursor.nextOffsetId), messages, next, requests)
  {
    messages, requests := [], 0;
    ghost var visible := Below(history(start), cursor.nextOffsetId);
    NothingYet(visible);
    if limits.maxPages <= 0 || limits.maxMessages <= 0 {
      return messages, cursor, 0;
    }
    BelowIsAscending(history(start), cursor.nextOffsetId);
    var offset, latest, exhausted := cursor.nextOffsetId, cursor.lastMessageId, false;
    while requests < limits.maxPages && |messages| < limits.maxMessages && !exhausted
      invariant 0 <= requests <= limits.maxPages && |messages| <= limits.maxMessages
      invariant |messages| <= |visible| && messages == Newest(visible, |messages|)
      invariant latest == LatestOf(cursor.lastMessageId, messages)
      invariant if exhausted then requests > 0 && offset.None? &&
                (if limits.pageSize >= 1 then |messages| == |visible| else messages == [])
                else && offset == OffsetAfter(cursor.nextOffsetId, messages)
                     && (messages == [] <==> requests == 0) && (messages != [] ==> limits.pageSize >= 1)
      invariant limits.pageSize < 1 && requests > 0 ==> exhausted && requests == 1
      decreases limits.maxPages - requests
    {
      messages, latest, offset, exhausted :=
        TakePage(history, start, start + requests, cursor, limits, messages, latest, visible);
      requests := requests + 1;
    }
    next := Cursor(latest, offset);
    Reported(limits, cursor, visible, messages, requests, exhausted);
  }

  lemma NothingYet(visible: History)
    ensures Newest(visible, 0) == []
  {
  }

  /** The state in which the loop ends is the report. */
  lemma Reported(limits: Limits, cursor: Cursor, visible: History, messages: seq<int>, requests: nat, exhausted: bool)
    requires limits.maxPages > 0 && limits.maxMessages > 0
    requires 1 <= requests <= limits.maxPages && |messages| <= limits.maxMessages
    requires |messages| <= |visible| && messages == Newest(visible, |messages|)
    requires limits.pageSize < 1 ==> exhausted && requests == 1
    requires if exhausted then (if limits.pageSize >= 1 then |messages| == |visible| else messages == [])
             else messages != [] && (requests == limits.maxPages || |messages| == limits.maxMessages)
    ensures PollReport(limits, cursor, visible, messages,
                       Cursor(LatestOf(cursor.lastMessageId, messages),
                              if exhausted then None else OffsetAfter(cursor.nextOffsetId, messages)), requests)
  {
  }

  /** With a page size below one a poll asks once, returns nothing and reports exhaustion, whatever
      the history holds; a history of two messages is missed entirely. */
  lemma EmptyPagesMissHistory(limits: Limits, cursor: Cursor, visible: History, messages: seq<int>, next: Cursor,
                              requests: nat)
    requires limits.pageSize < 1 && limits.maxPages > 0 && limits.maxMessages > 0
    ensures PollReport(limits, cursor, visible, messages, next, requests) <==>
            messages == [] && next == Cursor(cursor.lastMessageId, None) && requests == 1
    ensures PollReport(Limits(1, 5, 0), Cursor(None, None), [1, 2], [], Cursor(None, None), 1)
  {
    NothingYet(visible);
    NothingYet([1, 2]);
  }

  // ----- a cycle of polls -----

  /** One poll that took place; `start` is the number of its first request. */
  datatype Poll = Poll(start: nat, limits: Limits, cursor: Cursor, messages: seq<int>, next: Cursor, requests: nat)

  ghost predicate Happened(history: nat -> History, p: Poll) {
    PollReport(p.limits, p.cursor, Below(history(p.start), p.cursor.nextOffsetId), p.messages, p.next, p.requests)
  }

  /** Polls that start from a null offset with a poll that may fetch, hand the cursor on, and of which
      all but the last leave something to fetch. */
  ghost predicate Underway(history: nat -> History, polls: seq<Poll>) {
    && polls != []
    && var p := polls[|polls| - 1];
       && Happened(history, p) && p.limits.pageSize >= 1
       && if |polls| == 1 then p.cursor.nextOffsetId.None? && p.limits.maxPages > 0 && p.limits.maxMessages > 0
          else
            var q := polls[|polls| - 2];
            && Underway(history, polls[..|polls| - 1])
            && p.cursor == q.next && q.next.nextOffsetId.Some? && q.start + q.requests <= p.start
  }

  /** Everything the polls returned, in order. */
  ghost function Returned(polls: seq<Poll>): seq<int> {
    if polls == [] then [] else Returned(polls[..|polls| - 1]) + polls[|polls| - 1].messages
  }

  /** `k` newest ids of `h` are returned, and the cursor points behind them. */
  ghost predicate CoveredSoFar(h: History, stored: Option<int>, polls: seq<Poll>, k: nat)
    requires polls != []
  {
    var next := polls[|polls| - 1].next;
    && k <= |h| && Returned(polls) == Newest(h, k)
    && next.lastMessageId == LatestOf(stored, Newest(h, k))
    && if next.nextOffsetId.Some? then k > 0 && next.nextOffsetId == Some(h[|h| - k]) else k == |h|
  }

  lemma LatestComposes(stored: Option<int>, a: seq<int>, b: seq<int>)
    requires a != [] && (b != [] ==> b[0] < a[0])
    ensures LatestOf(LatestOf(stored, a), b) == LatestOf(stored, a + b)
  {
  }

  /** One more poll extends the covered part of the first history. */
  lemma CoverMore(history: nat -> History, h: History, stored: Option<int>, p: Poll, k: nat)
    requires Increasing(h) && Increasing(history(p.start)) && h <= history(p.start) && Happened(history, p) &&
             p.limits.pageSize >= 1
    requires 0 < k <= |h| && p.cursor == Cursor(LatestOf(stored, Newest(h, k)), Some(h[|h| - k]))
    ensures var k' := k + |p.messages|;
            && k' <= |h| && Newest(h, k) + p.messages == Newest(h, k') &&
                p.next.lastMessageId == LatestOf(stored, Newest(h, k'))
            && if p.next.nextOffsetId.Some? then p.next.nextOffsetId == Some(h[|h| - k']) else k' == |h|
  {
    OffsetIsStable(h, history(p.start), |h| - k);
    NewestSplits(h, k, |p.messages|);
    if p.messages != [] {
      assert p.messages[0] == h[|h| - k - 1];
    }
    LatestComposes(stored, Newest(h, k), p.messages);
  }

  lemma FirstPoll(history: nat -> History, p: Poll)
    requires Happened(history, p) && p.limits.pageSize >= 1 && p.cursor.nextOffsetId.None?
    requires p.limits.maxPages > 0 && p.limits.maxMessages > 0
    ensures CoveredSoFar(history(p.start), p.cursor.lastMessageId, [p], |p.messages|)
  {
    BelowAll(history(p.start));
    ReturnedOne(p);
  }

  lemma BelowAll(h: History)
    ensures Below(h, None) == h
  {
  }

  lemma ReturnedOne(p: Poll)
    ensures Returned([p]) == p.messages
  {
    ReturnedAppend([], p);
    assert [] + [p] == [p];
  }

  lemma ReturnedAppend(before: seq<Poll>, p: Poll)
    ensures Returned(before + [p]) == Returned(before) + p.messages
  {
    assert (before + [p])[..|before|] == before;
  }

  lemma CoverExtends(history: nat -> History, h: History, stored: Option<int>, before: seq<Poll>, p: Poll, k: nat)
    requires Increasing(h) && Increasing(history(p.start)) && h <= history(p.start) && Happened(history, p) &&
             p.limits.pageSize >= 1
    requires before != [] && p.cursor == before[|before| - 1].next && p.cursor.nextOffsetId.Some?
    requires CoveredSoFar(h, stored, before, k)
    ensures CoveredSoFar(h, stored, before + [p], k + |p.messages|)
  {
    CoverMore(history, h, stored, p, k);
    ReturnedAppend(before, p);
  }

  lemma OnePollCovers(history: nat -> History, polls: seq<Poll>)
    requires Underway(history, polls) && |polls| == 1
    ensures CoveredSoFar(history(polls[0].start), polls[0].cursor.lastMessageId, polls, |polls[0].messages|)
  {
    assert polls == [polls[0]];
    FirstPoll(history, polls[0]);
  }

  lemma LastPollCovers(history: nat -> History, polls: seq<Poll>, k: nat)
    requires Underway(history, polls) && |polls| > 1
    requires var h, later := history(polls[0].start), history(polls[|polls| - 1].start);
             Increasing(h) && Increasing(later) && h <= later
    requires CoveredSoFar(history(polls[0].start), polls[0].cursor.lastMessageId, polls[..|polls| - 1], k)
    ensures CoveredSoFar(history(polls[0].start), polls[0].cursor.lastMessageId, polls,
                         k + |polls[|polls| - 1].messages|)
  {
    var before, p := polls[..|polls| - 1], polls[|polls| - 1];
    CoverExtends(history, history(polls[0].start), polls[0].cursor.lastMessageId, before, p, k);
    SplitLast(polls);
  }

  lemma SplitLast(polls: seq<Poll>)
    requires polls != []
    ensures polls[..|polls| - 1] + [polls[|polls| - 1]] == polls
  {
  }

  lemma HistoryGrew(history: nat -> History, s: nat, t: nat)
    requires AppendOnly(history) && s <= t
    ensures Increasing(history(s)) && Increasing(history(t)) && history(s) <= history(t)
  {
    assert Extended(history, s, t);
  }

  lemma {:induction false} Covering(history: nat -> History, polls: seq<Poll>) returns (k: nat)
    requires AppendOnly(history) && Underway(history, polls)
    ensures polls[0].start <= polls[|polls| - 1].start
    ensures CoveredSoFar(history(polls[0].start), polls[0].cursor.lastMessageId, polls, k)
    decreases |polls|
  {
    if |polls| == 1 {
      OnePollCovers(history, polls);
      k := |polls[0].messages|;
    } else {
      k := Covering(history, polls[..|polls| - 1]);
      HistoryGrew(history, polls[0].start, polls[|polls| - 1].start);
      LastPollCovers(history, polls, k);
      k := k + |polls[|polls| - 1].messages|;
    }
  }

  /** Pagination coverage: the polls from a null offset to exhaustion return every message that existed
      at the first request of the cycle exactly once, newest first, however much the history grew. */
  lemma CycleCoversHistory(history: nat -> History, polls: seq<Poll>)
    requires AppendOnly(history) && Underway(history, polls) && polls[|polls| - 1].next.nextOffsetId.None?
    ensures var h := history(polls[0].start);
            && Returned(polls) == Newest(h, |h|)
            && (forall i, j | 0 <= i < j < |Returned(polls)| :: Returned(polls)[i] > Returned(polls)[j])
            && (forall id :: id in Returned(polls) <==> id in h)
            && polls[|polls| - 1].next.lastMessageId == LatestOf(polls[0].cursor.lastMessageId, Newest(h, |h|))
  {
    var h := history(polls[0].start);
    var _ := Covering(history, polls);
    NewestDescends(h, |h|);
    NewestIsAll(h);
  }

  ghost predicate MayFetch(polls: seq<Poll>) {
    forall i | 0 <= i < |polls| :: polls[i].limits.maxPages > 0 && polls[i].limits.maxMessages > 0
  }

  /** Every poll that leaves something to fetch has returned something. */
  lemma {:induction false} ReturnedGrows(history: nat -> History, polls: seq<Poll>)
    requires Underway(history, polls) && MayFetch(polls)
    ensures |Returned(polls)| >= if polls[|polls| - 1].next.nextOffsetId.Some? then |polls| else |polls| - 1
    decreases |polls|
  {
    var before, p := polls[..|polls| - 1], polls[|polls| - 1];
    assert Happened(history, p) && p.limits.maxPages > 0 && p.limits.maxMessages > 0;
    if |polls| > 1 {
      assert before[|before| - 1] == polls[|polls| - 2];
      ReturnedGrows(history, before);
    }
  }

  /** A cycle of polls that may fetch ends: with `n` messages at its first request it is exhausted after
      at most `n + 1` polls. */
  lemma CycleEnds(history: nat -> History, polls: seq<Poll>)
    requires AppendOnly(history) && Underway(history, polls) && MayFetch(polls)
    ensures var n := |history(polls[0].start)|;
            |polls| <= n + 1 && (|polls| == n + 1 ==> polls[|polls| - 1].next.nextOffsetId.None?)
  {
    var k := Covering(history, polls);
    ReturnedGrows(history, polls);
    assert |Newest(history(polls[0].start), k)| == k;
  }

  lemma NewestIsAll(h: History)
    ensures forall id :: id in Newest(h, |h|) <==> id in h
  {
    var r := Newest(h, |h|);
    forall id | id in h ensures id in r {
      var i :| 0 <= i < |h| && h[i] == id;
      assert r[|h| - 1 - i] == id;
    }
  }
}
