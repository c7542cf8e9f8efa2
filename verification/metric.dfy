/** The heart-count aggregation: the number of log entries of type
    "Heart Sent" whose timestamp falls on today's calendar date. */
module Metric {
  import opened Types

  /** A calendar day in the local time zone, as an abstract day number. */
  type Day = int

  /** The log entry type that is counted. */
  const HeartSent: string := "Heart Sent"

  /** One fetched log entry: its `Type` tag and the local calendar day of its
      `Timestamp`, or None when the timestamp does not parse as a date. */
  datatype LogEntry = LogEntry(kind: string, day: Option<Day>)

  /** The filter condition applied to each entry. */
  predicate IsTodayHeart(e: LogEntry, today: Day)
  {
    e.kind == HeartSent && e.day == Some(today)
  }

  /** The entries that pass the filter, in log order. */
  function TodayHearts(logs: seq<LogEntry>, today: Day): (r: seq<LogEntry>)
    ensures |r| <= |logs|
    ensures forall e :: e in r ==> e in logs && IsTodayHeart(e, today)
    ensures forall e :: e in logs && IsTodayHeart(e, today) ==> e in r
    decreases |logs|
  {
    if logs == [] then []
    else
      var rest := TodayHearts(logs[1..], today);
      assert forall e :: e in logs[1..] ==> e in logs;
      if IsTodayHeart(logs[0], today) then [logs[0]] + rest else rest
  }

  /** The heart count shown during the introduction. */
  function HeartCount(logs: seq<LogEntry>, today: Day): (n: nat)
    ensures n <= |logs|
  {
    |TodayHearts(logs, today)|
  }

  /** Filtering a concatenation filters each part. */
  lemma {:induction false} TodayHeartsAppend(a: seq<LogEntry>, b: seq<LogEntry>, today: Day)
    ensures TodayHearts(a + b, today) == TodayHearts(a, today) + TodayHearts(b, today)
    decreases |a|
  {
    if a == [] {
      assert a + b == b;
    } else {
      assert (a + b)[1..] == a[1..] + b;
      TodayHeartsAppend(a[1..], b, today);
    }
  }

  /** The filtered entries, as a multiset, are the matching entries of the log
      with their multiplicities and nothing else. */
  lemma {:induction false} TodayHeartsMultiset(logs: seq<LogEntry>, today: Day, e: LogEntry)
    ensures multiset(TodayHearts(logs, today))[e] ==
              if IsTodayHeart(e, today) then multiset(logs)[e] else 0
    decreases |logs|
  {
    if logs != [] {
      TodayHeartsMultiset(logs[1..], today, e);
      assert logs == [logs[0]] + logs[1..];
      assert multiset(logs) == multiset([logs[0]]) + multiset(logs[1..]);
    }
  }

  /** The order of the log does not matter: any reordering gives the same count. */
  lemma HeartCountPermutation(a: seq<LogEntry>, b: seq<LogEntry>, today: Day)
    requires multiset(a) == multiset(b)
    ensures HeartCount(a, today) == HeartCount(b, today)
  {
    var fa := TodayHearts(a, today);
    var fb := TodayHearts(b, today);
    forall e
      ensures multiset(fa)[e] == multiset(fb)[e]
    {
      TodayHeartsMultiset(a, today, e);
      TodayHeartsMultiset(b, today, e);
    }
    assert multiset(fa) == multiset(fb);
    assert |multiset(fa)| == |fa| && |multiset(fb)| == |fb|;
  }

  /** An entry whose timestamp does not parse never counts, wherever it sits. */
  lemma UnparseableNeverCounts(a: seq<LogEntry>, e: LogEntry, b: seq<LogEntry>, today: Day)
    requires e.day == None
    ensures HeartCount(a + [e] + b, today) == HeartCount(a + b, today)
  {
    TodayHeartsAppend(a + [e], b, today);
    TodayHeartsAppend(a, [e], today);
    TodayHeartsAppend(a, b, today);
    assert TodayHearts([e], today) == [] by {
      assert [e][1..] == [];
    }
  }

  /** Adding one entry adds one to the count exactly when it passes the filter. */
  lemma HeartCountSnoc(logs: seq<LogEntry>, e: LogEntry, today: Day)
    ensures HeartCount(logs + [e], today) ==
              HeartCount(logs, today) + (if IsTodayHeart(e, today) then 1 else 0)
  {
    TodayHeartsAppend(logs, [e], today);
    assert [e][1..] == [];
  }

  /** Computes the count in one pass over the fetched log, as the filter and
      its length do. */
  method CountHearts(logs: seq<LogEntry>, today: Day) returns (n: nat)
    ensures n == HeartCount(logs, today)
  {
    n := 0;
    var i := 0;
    while i < |logs|
      invariant 0 <= i <= |logs|
      invariant n == HeartCount(logs[..i], today)
    {
      HeartCountSnoc(logs[..i], logs[i], today);
      assert logs[..i + 1] == logs[..i] + [logs[i]];
      if IsTodayHeart(logs[i], today) {
        n := n + 1;
      }
      i := i + 1;
    }
    assert logs[..i] == logs;
  }

  /** Three hearts today, two yesterday and one other entry today count as three. */
  lemma ExampleCount()
    ensures HeartCount([LogEntry(HeartSent, Some(10)), LogEntry(HeartSent, Some(9)),
                        LogEntry("Message", Some(10)), LogEntry(HeartSent, Some(10)),
                        LogEntry(HeartSent, Some(9)), LogEntry(HeartSent, Some(10))], 10) == 3
  {
    var logs := [LogEntry(HeartSent, Some(10)), LogEntry(HeartSent, Some(9)),
                 LogEntry("Message", Some(10)), LogEntry(HeartSent, Some(10)),
                 LogEntry(HeartSent, Some(9)), LogEntry(HeartSent, Some(10))];
    // the first three entries hold one heart of today, the last three two
    var front, back := logs[..3], logs[3..];
    assert logs == front + back;
    TodayHeartsAppend(front, back, 10);
    assert front[1..][1..][1..] == [] && back[1..][1..][1..] == [];
    assert TodayHearts(front[2..], 10) == [] && TodayHearts(front[1..], 10) == [];
    assert TodayHearts(front, 10) == [front[0]];
    assert TodayHearts(back[2..], 10) == [back[2]];
    assert TodayHearts(back[1..], 10) == [back[2]];
    assert TodayHearts(back, 10) == [back[0], back[2]];
  }
}
