/**
 The message table and the thread-history query that reads it: the messages
 of one thread, ordered by ascending timestamp.
 */
module Messages {
  import opened Wrappers

  /** A point in time; only its order matters to the model. */
  type Timestamp = int

  /** One row of the `message` table. */
  datatype Message = Message(
    id: nat,
    message: string,
    timestamp: Timestamp,
    userName: string,
    userIcon: Option<string>,
    threadId: int)

  /** The range of a SQLite INTEGER column: a signed 64-bit value. */
  const MinInteger: int := -0x8000_0000_0000_0000
  const MaxInteger: int := 0x7fff_ffff_ffff_ffff

  /** `i` can be stored in an INTEGER column; a larger value makes the commit raise. */
  predicate FitsInteger(i: int) {
    MinInteger <= i <= MaxInteger
  }

  /** Timestamps never decrease along `s`. */
  ghost predicate SortedByTime(s: seq<Message>) {
    forall i, j :: 0 <= i < j < |s| ==> s[i].timestamp <= s[j].timestamp
  }

  /** `a` comes before `b` by timestamp, ties broken by id. */
  predicate Before(a: Message, b: Message) {
    a.timestamp < b.timestamp || (a.timestamp == b.timestamp && a.id < b.id)
  }

  /** Strictly ordered by timestamp, then id. */
  ghost predicate SortedByTimeThenId(s: seq<Message>) {
    forall i, j :: 0 <= i < j < |s| ==> Before(s[i], s[j])
  }

  /** Ids strictly increase along `s`, as they do along the table in insertion order. */
  ghost predicate IdsIncreasing(s: seq<Message>) {
    forall i, j :: 0 <= i < j < |s| ==> s[i].id < s[j].id
  }

  /** `filter_by(thread_id=t)`: the rows of thread `t`, in table order. */
  function InThread(log: seq<Message>, t: int): (r: seq<Message>)
    ensures forall m :: multiset(r)[m] == (if m.threadId == t then multiset(log)[m] else 0)
    ensures forall i :: 0 <= i < |r| ==> r[i].threadId == t
    ensures |r| <= |log|
  {
    if |log| == 0 then []
    else
      var last := log[|log| - 1];
      var rest := InThread(log[..|log| - 1], t);
      assert multiset(log) == multiset(log[..|log| - 1]) + multiset{last} by {
        assert log == log[..|log| - 1] + [last];
      }
      if last.threadId == t then rest + [last] else rest
  }

  /**
   The filter keeps table order: the rows of thread `t` in a longer table are
   those of the shorter one, followed by the new row when it belongs to `t`.
   */
  lemma InThreadAppend(log: seq<Message>, m: Message, t: int)
    ensures InThread(log + [m], t) == InThread(log, t) + (if m.threadId == t then [m] else [])
  {
    assert (log + [m])[..|log|] == log;
  }

  /**
   Inserts `m` into a time-sorted sequence after every element whose
   timestamp is not later than `m`'s.
   */
  function InsertByTime(m: Message, s: seq<Message>): (r: seq<Message>)
    requires SortedByTime(s)
    ensures SortedByTime(r)
    ensures multiset(r) == multiset(s) + multiset{m}
    ensures |r| == |s| + 1
  {
    if |s| == 0 then [m]
    else
      var last := s[|s| - 1];
      if last.timestamp <= m.timestamp then s + [m]
      else
        var init := s[..|s| - 1];
        assert s == init + [last];
        var r := InsertByTime(m, init);
        NoneLaterThanLast(m, s, r);
        SortedAppend(r, last);
        r + [last]
  }

  /** Inserting an earlier message into all but the last element leaves nothing later than that last element. */
  lemma NoneLaterThanLast(m: Message, s: seq<Message>, r: seq<Message>)
    requires SortedByTime(s) && |s| > 0 && m.timestamp < s[|s| - 1].timestamp
    requires multiset(r) == multiset(s[..|s| - 1]) + multiset{m}
    ensures forall x :: x in r ==> x.timestamp <= s[|s| - 1].timestamp
  {
    var init := s[..|s| - 1];
    forall x | x in r
      ensures x.timestamp <= s[|s| - 1].timestamp
    {
      assert x in multiset(r);
      if x != m {
        assert x in multiset(init);
        var k :| 0 <= k < |init| && init[k] == x;
        assert s[k] == x;
      }
    }
  }

  /** Appending an element no earlier than every element keeps time order. */
  lemma SortedAppend(r: seq<Message>, y: Message)
    requires SortedByTime(r)
    requires forall x :: x in r ==> x.timestamp <= y.timestamp
    ensures SortedByTime(r + [y])
  {
    var q := r + [y];
    forall i, j | 0 <= i < j < |q|
      ensures q[i].timestamp <= q[j].timestamp
    {
      assert q[i] == r[i];
      if j == |r| {
        assert q[i] in r;
      } else {
        assert q[j] == r[j];
      }
    }
  }

  /** A stable sort by timestamp: equal timestamps keep their relative order. */
  function SortByTime(s: seq<Message>): (r: seq<Message>)
    ensures SortedByTime(r)
    ensures multiset(r) == multiset(s)
    ensures |r| == |s|
  {
    if |s| == 0 then []
    else
      assert s == s[..|s| - 1] + [s[|s| - 1]];
      InsertByTime(s[|s| - 1], SortByTime(s[..|s| - 1]))
  }

  /**
   The history of thread `t`: every message of that thread, each as often as
   it occurs in the table, none of another thread, in non-decreasing
   timestamp order.
   */
  function ThreadHistory(log: seq<Message>, t: int): (r: seq<Message>)
    ensures forall m :: multiset(r)[m] == (if m.threadId == t then multiset(log)[m] else 0)
    ensures forall m :: m in r <==> m in log && m.threadId == t
    ensures SortedByTime(r)
  {
    var r := SortByTime(InThread(log, t));
    assert forall m :: m in r <==> multiset(r)[m] > 0;
    assert forall m :: m in log <==> multiset(log)[m] > 0;
    r
  }

  /** Strict (timestamp, id) order implies time order. */
  lemma TieBreakIsSorted(s: seq<Message>)
    requires SortedByTimeThenId(s)
    ensures SortedByTime(s)
  {
  }

  /** A prefix of a (timestamp, id)-ordered sequence keeps that order. */
  lemma TieBreakPrefix(s: seq<Message>, k: nat)
    requires SortedByTimeThenId(s) && k <= |s|
    ensures SortedByTimeThenId(s[..k])
  {
    var p := s[..k];
    forall i, j | 0 <= i < j < |p|
      ensures Before(p[i], p[j])
    {
      assert p[i] == s[i] && p[j] == s[j];
    }
  }

  /** Appending an element that follows every element keeps the order. */
  lemma TieBreakAppend(r: seq<Message>, y: Message)
    requires SortedByTimeThenId(r)
    requires forall x :: x in r ==> Before(x, y)
    ensures SortedByTimeThenId(r + [y])
  {
    var q := r + [y];
    forall i, j | 0 <= i < j < |q|
      ensures Before(q[i], q[j])
    {
      assert q[i] == r[i];
      if j == |r| {
        assert q[i] in r;
      } else {
        assert q[j] == r[j];
      }
    }
  }

  /** A message later than the last one, or tied with it and newer, goes at the end in order. */
  lemma InsertLatestKeepsTieBreak(m: Message, s: seq<Message>)
    requires SortedByTimeThenId(s) && |s| > 0
    requires forall x :: x in s ==> x.id < m.id
    requires s[|s| - 1].timestamp <= m.timestamp
    ensures SortedByTime(s) && SortedByTimeThenId(InsertByTime(m, s))
  {
    TieBreakIsSorted(s);
    var last := s[|s| - 1];
    assert InsertByTime(m, s) == s + [m];
    forall x | x in s
      ensures Before(x, m)
    {
      var k :| 0 <= k < |s| && s[k] == x;
      if k < |s| - 1 {
        assert Before(s[k], s[|s| - 1]);
      }
    }
    TieBreakAppend(s, m);
  }

  /** Every element of the insertion result is one of `s` or `m` itself. */
  lemma InsertedFrom(m: Message, s: seq<Message>, x: Message)
    requires SortedByTime(s) && x in InsertByTime(m, s)
    ensures x == m || x in s
  {
    assert x in multiset(InsertByTime(m, s));
  }

  /** Inserting a message whose id exceeds all others keeps the id tie-break. */
  lemma {:induction false} InsertKeepsTieBreak(m: Message, s: seq<Message>)
    requires SortedByTimeThenId(s)
    requires forall x :: x in s ==> x.id < m.id
    ensures SortedByTime(s) && SortedByTimeThenId(InsertByTime(m, s))
    decreases |s|
  {
    TieBreakIsSorted(s);
    if |s| == 0 {
      assert InsertByTime(m, s) == [m];
    } else if s[|s| - 1].timestamp <= m.timestamp {
      InsertLatestKeepsTieBreak(m, s);
    } else {
      var init := s[..|s| - 1];
      var last := s[|s| - 1];
      assert SortedByTimeThenId(InsertByTime(m, init)) by {
        assert forall x :: x in init ==> x in s;
        TieBreakPrefix(s, |s| - 1);
        InsertKeepsTieBreak(m, init);
      }
      var r0 := InsertByTime(m, init);
      assert InsertByTime(m, s) == r0 + [last];
      forall x | x in r0
        ensures Before(x, last)
      {
        InsertedFrom(m, init, x);
        if x != m {
          var k :| 0 <= k < |init| && init[k] == x;
          assert Before(s[k], s[|s| - 1]);
        }
      }
      TieBreakAppend(r0, last);
    }
  }

  /** Sorting a table whose ids increase orders ties by id. */
  lemma {:induction false} SortKeepsTieBreak(s: seq<Message>)
    requires IdsIncreasing(s)
    ensures SortedByTimeThenId(SortByTime(s))
    decreases |s|
  {
    if |s| > 0 {
      var init := s[..|s| - 1];
      var m := s[|s| - 1];
      SortKeepsTieBreak(init);
      forall x | x in SortByTime(init)
        ensures x.id < m.id
      {
        assert x in multiset(SortByTime(init));
        assert x in init;
      }
      InsertKeepsTieBreak(m, SortByTime(init));
    }
  }

  /**
   In a table whose ids increase, the history of a thread is ordered by
   timestamp and, among equal timestamps, by id: the order is fully
   determined.
   */
  lemma ThreadHistoryTieBreak(log: seq<Message>, t: int)
    requires IdsIncreasing(log)
    ensures SortedByTimeThenId(ThreadHistory(log, t))
  {
    InThreadKeepsOrder(log, t);
    SortKeepsTieBreak(InThread(log, t));
  }

  /** The filtered rows keep increasing ids. */
  lemma {:induction false} InThreadKeepsOrder(log: seq<Message>, t: int)
    requires IdsIncreasing(log)
    ensures IdsIncreasing(InThread(log, t))
    decreases |log|
  {
    if |log| > 0 {
      var init := log[..|log| - 1];
      var last := log[|log| - 1];
      InThreadKeepsOrder(init, t);
      var rest := InThread(init, t);
      forall x | x in rest
        ensures x.id < last.id
      {
        assert x in multiset(rest);
        assert x in init;
      }
    }
  }

  /** A prefix of a time-ordered sequence is time-ordered. */
  lemma SortedPrefix(s: seq<Message>, k: nat)
    requires SortedByTime(s) && k <= |s|
    ensures SortedByTime(s[..k])
  {
    var p := s[..k];
    forall i, j | 0 <= i < j < |p|
      ensures p[i].timestamp <= p[j].timestamp
    {
      assert p[i] == s[i] && p[j] == s[j];
    }
  }

  /** A message no earlier than the last one is inserted at the end. */
  lemma InsertLatest(m: Message, s: seq<Message>)
    requires SortedByTime(s)
    requires |s| > 0 ==> s[|s| - 1].timestamp <= m.timestamp
    ensures InsertByTime(m, s) == s + [m]
  {
  }

  /** Sorting an already time-ordered sequence changes nothing. */
  lemma {:induction false} SortSortedIsIdentity(s: seq<Message>)
    requires SortedByTime(s)
    ensures SortByTime(s) == s
    decreases |s|
  {
    if |s| > 0 {
      var init := s[..|s| - 1];
      var last := s[|s| - 1];
      assert SortByTime(init) == init by {
        SortedPrefix(s, |s| - 1);
        SortSortedIsIdentity(init);
      }
      assert InsertByTime(last, init) == s by {
        SortedPrefix(s, |s| - 1);
        InsertLatest(last, init);
        assert init + [last] == s;
      }
    }
  }

  /**
   When messages were appended with a clock that never went back, the
   history of a thread is its messages in the order they were written.
   */
  lemma ThreadHistoryOfTimeOrderedLog(log: seq<Message>, t: int)
    requires SortedByTime(log)
    ensures ThreadHistory(log, t) == InThread(log, t)
  {
    InThreadSorted(log, t);
    SortSortedIsIdentity(InThread(log, t));
  }

  /** Filtering keeps a time-ordered sequence time-ordered. */
  lemma {:induction false} InThreadSorted(log: seq<Message>, t: int)
    requires SortedByTime(log)
    ensures SortedByTime(InThread(log, t))
    decreases |log|
  {
    if |log| > 0 {
      var init := log[..|log| - 1];
      var last := log[|log| - 1];
      InThreadSorted(init, t);
      var rest := InThread(init, t);
      forall x | x in rest
        ensures x.timestamp <= last.timestamp
      {
        assert x in multiset(rest);
        assert x in init;
      }
    }
  }

  /**
   Read-your-writes: after a message is appended, its thread's history holds
   it, and every other thread's history is exactly as before.
   */
  lemma AppendVisibleInHistory(log: seq<Message>, m: Message, t: int)
    ensures m in ThreadHistory(log + [m], m.threadId)
    ensures t != m.threadId ==> ThreadHistory(log + [m], t) == ThreadHistory(log, t)
  {
    assert (log + [m])[..|log|] == log;
  }
}
