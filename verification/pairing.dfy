/** Pairing of start and complete events into activity instances
    (`mergePairsWithZeros.py`): the per-(case, activity) occurrence index,
    the `EventID` built from it, and `start_end_event_log_all`, which joins
    starts to completes on case, activity and `EventID`, keeps the pairs of
    non-negative duration and sorts them by case and start time.
    Timestamps are seconds. */
module Pairing {
  import opened Seqs
  import opened Ordering

  /** One row of the raw log: case, activity, lifecycle transition, the
      timestamp as the text the CSV holds and as the time it denotes, and
      the resource. */
  datatype LogEvent = LogEvent(caseId: string, activity: string, transition: string,
                               stamp: string, timestamp: real, resource: string)

  const StartLabel: string := "start"
  const CompleteLabel: string := "complete"
  const Separator: string := "_"

  function Transitions(log: seq<LogEvent>): seq<string> {
    seq(|log|, i requires 0 <= i < |log| => log[i].transition)
  }

  /** `log_df[log_df['lifecycle:transition'] == lifecycle]`: the rows with
      the given transition, in log order; `WithTransitionExact` places each
      of them. */
  function WithTransition(log: seq<LogEvent>, lifecycle: string): (r: seq<LogEvent>)
    ensures |r| == Occurrences(Transitions(log), lifecycle, |log|)
    ensures forall i :: 0 <= i < |r| ==> r[i].transition == lifecycle && r[i] in log
    ensures forall i :: 0 <= i < |log| && log[i].transition == lifecycle ==> log[i] in r
  {
    var r := Select(log, Transitions(log), lifecycle);
    SelectExact(log, Transitions(log), lifecycle);
    assert forall i :: 0 <= i < |r| ==> r[i].transition == lifecycle && r[i] in log by {
      forall i | 0 <= i < |r| ensures r[i].transition == lifecycle && r[i] in log {
        assert ComesFrom(log, Transitions(log), lifecycle, |log|, i, r[i]);
      }
    }
    assert forall i :: 0 <= i < |log| && log[i].transition == lifecycle ==> log[i] in r by {
      forall i | 0 <= i < |log| && log[i].transition == lifecycle ensures log[i] in r {
        assert Transitions(log)[i] == lifecycle;
      }
    }
    r
  }

  /** The selection holds one entry per row with the transition and nothing
      else: the `m`-th such row (in log order) supplies entry `m`. */
  lemma {:induction false} WithTransitionExact(log: seq<LogEvent>, lifecycle: string)
    ensures forall i :: 0 <= i < |log| && log[i].transition == lifecycle ==>
              Occurrences(Transitions(log), lifecycle, i) < |WithTransition(log, lifecycle)| &&
              WithTransition(log, lifecycle)[Occurrences(Transitions(log), lifecycle, i)] == log[i]
    ensures forall m :: 0 <= m < |WithTransition(log, lifecycle)| ==>
              ComesFrom(log, Transitions(log), lifecycle, |log|, m, WithTransition(log, lifecycle)[m])
  {
    SelectExact(log, Transitions(log), lifecycle);
    forall i | 0 <= i < |log| && log[i].transition == lifecycle
      ensures Occurrences(Transitions(log), lifecycle, i) < |WithTransition(log, lifecycle)| &&
              WithTransition(log, lifecycle)[Occurrences(Transitions(log), lifecycle, i)] == log[i]
    {
      assert Transitions(log)[i] == lifecycle;
    }
  }

  // ---------------------------------------------------------------------
  // event_index: `sort_values(timestamp).groupby([case, activity]).cumcount()`

  predicate SameGroup(a: LogEvent, b: LogEvent) {
    a.caseId == b.caseId && a.activity == b.activity
  }

  /** Python's `a < b` on strings. */
  predicate TextLess(a: string, b: string) {
    LexLe(a, b) && a != b
  }

  /** Row `j` comes before row `i` in the sort by the timestamp column as
      read, which is text: its stamp is smaller in Python's string order,
      or the stamps are equal and `j` is the earlier row. */
  predicate Precedes(evs: seq<LogEvent>, j: nat, i: nat)
    requires j < |evs| && i < |evs|
  {
    TextLess(evs[j].stamp, evs[i].stamp) || (evs[j].stamp == evs[i].stamp && j < i)
  }

  lemma {:induction false} PrecedesTransitive(evs: seq<LogEvent>, k: nat, j: nat, i: nat)
    requires k < |evs| && j < |evs| && i < |evs|
    requires Precedes(evs, k, j) && Precedes(evs, j, i)
    ensures Precedes(evs, k, i)
  {
    var a, b, c := evs[k].stamp, evs[j].stamp, evs[i].stamp;
    if TextLess(a, b) && TextLess(b, c) {
      LexTransitive(a, b, c);
      if a == c {
        LexAntisymmetric(a, b);
      }
    }
  }

  /** Of two different rows one precedes the other. */
  lemma {:induction false} PrecedesTotal(evs: seq<LogEvent>, j: nat, i: nat)
    requires j < |evs| && i < |evs| && i != j
    ensures Precedes(evs, j, i) || Precedes(evs, i, j)
  {
    LexTotal(evs[j].stamp, evs[i].stamp);
  }

  /** The rows of `i`'s group that precede it. */
  function EarlierInGroup(evs: seq<LogEvent>, i: nat): nat -> bool
    requires i < |evs|
  {
    (j: nat) => j < |evs| && SameGroup(evs[j], evs[i]) && Precedes(evs, j, i)
  }

  /** The rows of `i`'s group, `i` included. */
  function InGroup(evs: seq<LogEvent>, i: nat): nat -> bool
    requires i < |evs|
  {
    (j: nat) => j < |evs| && SameGroup(evs[j], evs[i])
  }

  /** The number of rows in `i`'s (case, activity) group. */
  function GroupSize(evs: seq<LogEvent>, i: nat): nat
    requires i < |evs|
  {
    CountWhere(|evs|, InGroup(evs, i))
  }

  /** The row's `event_index`: how many rows of its (case, activity) group
      come before it in the sort by timestamp text. It is below the size of
      the group. */
  function Rank(evs: seq<LogEvent>, i: nat): (r: nat)
    requires i < |evs|
    ensures r < GroupSize(evs, i)
  {
    CountStrict(|evs|, EarlierInGroup(evs, i), InGroup(evs, i), i);
    CountWhere(|evs|, EarlierInGroup(evs, i))
  }

  /** Within a group, a row that precedes another has a smaller index. */
  lemma {:induction false} RankIncreasing(evs: seq<LogEvent>, j: nat, i: nat)
    requires j < |evs| && i < |evs|
    requires SameGroup(evs[j], evs[i]) && Precedes(evs, j, i)
    ensures Rank(evs, j) < Rank(evs, i)
  {
    var p, q := EarlierInGroup(evs, j), EarlierInGroup(evs, i);
    forall k | 0 <= k < |evs| && p(k) ensures q(k) {
      PrecedesTransitive(evs, k, j, i);
    }
    assert !p(j) && q(j);
    CountStrict(|evs|, p, q, j);
  }

  /** The stamps' text order agrees with their time order, as it does for
      stamps all written in one zero-padded, year-first format. */
  predicate StampsFollowTime(evs: seq<LogEvent>) {
    forall a, b :: 0 <= a < |evs| && 0 <= b < |evs| && evs[a].timestamp < evs[b].timestamp ==>
      TextLess(evs[a].stamp, evs[b].stamp)
  }

  /** When text order agrees with time order, an earlier time means a
      smaller index within a group: the index then counts occurrences in
      time order. */
  lemma {:induction false} RankFollowsTime(evs: seq<LogEvent>, j: nat, i: nat)
    requires j < |evs| && i < |evs| && StampsFollowTime(evs)
    requires SameGroup(evs[j], evs[i]) && evs[j].timestamp < evs[i].timestamp
    ensures Rank(evs, j) < Rank(evs, i)
  {
    assert TextLess(evs[j].stamp, evs[i].stamp);
    RankIncreasing(evs, j, i);
  }

  /** Distinct rows of one group get distinct indices. */
  lemma {:induction false} RankInjective(evs: seq<LogEvent>, i: nat, j: nat)
    requires i < |evs| && j < |evs| && i != j
    requires SameGroup(evs[i], evs[j])
    ensures Rank(evs, i) != Rank(evs, j)
  {
    PrecedesTotal(evs, i, j);
    if Precedes(evs, i, j) {
      RankIncreasing(evs, i, j);
    } else {
      RankIncreasing(evs, j, i);
    }
  }

  // ---------------------------------------------------------------------
  // EventID

  /** `EventID`: the case, the activity and the decimal index, joined by
      underscores. */
  function EventId(e: LogEvent, index: nat): (id: string)
    ensures var p := |e.caseId|;
            var q := p + 1 + |e.activity|;
            && |id| > q + 1
            && id[..p] == e.caseId && id[p] == '_'
            && id[p + 1..q] == e.activity && id[q] == '_'
            && id[q + 1..] == NatToString(index)
            && forall k :: q + 1 <= k < |id| ==> '0' <= id[k] <= '9'
  {
    e.caseId + Separator + e.activity + Separator + NatToString(index)
  }

  /** For one case and activity, two identifiers agree exactly when the
      indices do. */
  lemma {:induction false} EventIdDeterminesIndex(a: LogEvent, b: LogEvent, m: nat, n: nat)
    requires SameGroup(a, b)
    ensures EventId(a, m) == EventId(b, n) <==> m == n
  {
    var prefix := a.caseId + Separator + a.activity + Separator;
    assert EventId(a, m) == prefix + NatToString(m);
    assert EventId(b, n) == prefix + NatToString(n);
    if EventId(a, m) == EventId(b, n) {
      assert NatToString(m) == (prefix + NatToString(m))[|prefix|..];
      NatToStringInjective(m, n);
    }
  }

  /** A row with its `event_index` and `EventID`. */
  datatype Tagged = Tagged(event: LogEvent, index: nat, eventId: string)

  /** The rows of one transition, each tagged with its index and identifier. */
  function Tag(evs: seq<LogEvent>): (r: seq<Tagged>)
    ensures |r| == |evs|
    ensures forall i :: 0 <= i < |r| ==> r[i].event == evs[i] && r[i].index < GroupSize(evs, i)
    ensures forall i :: 0 <= i < |r| ==> r[i].eventId == EventId(evs[i], r[i].index)
  {
    seq(|evs|, i requires 0 <= i < |evs| => Tagged(evs[i], Rank(evs, i), EventId(evs[i], Rank(evs, i))))
  }

  /** Within one tagged transition, case, activity and `EventID` identify
      a row. */
  lemma {:induction false} TagKeysUnique(evs: seq<LogEvent>, i: nat, j: nat)
    requires i < |evs| && j < |evs|
    requires SameGroup(evs[i], evs[j]) && Tag(evs)[i].eventId == Tag(evs)[j].eventId
    ensures i == j
  {
    var t := Tag(evs);
    EventIdDeterminesIndex(evs[i], evs[j], t[i].index, t[j].index);
    if i != j {
      RankInjective(evs, i, j);
    }
  }

  // ---------------------------------------------------------------------
  // start_end_event_log_all

  /** A joined start/complete pair with its duration in seconds,
      milliseconds and hours. */
  datatype Pair = Pair(start: Tagged, complete: Tagged, seconds: real, millis: real, hours: real)

  /** The merge keys agree: case, activity and `EventID`. */
  predicate Matches(s: Tagged, c: Tagged) {
    s.event.caseId == c.event.caseId && s.event.activity == c.event.activity && s.eventId == c.eventId
  }

  function MakePair(s: Tagged, c: Tagged): (p: Pair)
    ensures p.start == s && p.complete == c
    ensures p.seconds == c.event.timestamp - s.event.timestamp
    ensures p.millis == 1000.0 * p.seconds && p.hours * 3600.0 == p.seconds
  {
    var d := c.event.timestamp - s.event.timestamp;
    Pair(s, c, d, d * 1000.0, d / 3600.0)
  }

  /** The completes matching one start, in order. */
  function MatchesOf(s: Tagged, completes: seq<Tagged>): (r: seq<Pair>)
    ensures forall k :: 0 <= k < |r| ==> r[k].start == s && r[k].complete in completes && Matches(s, r[k].complete)
    ensures forall k :: 0 <= k < |r| ==> r[k] == MakePair(s, r[k].complete)
    ensures forall j :: 0 <= j < |completes| && Matches(s, completes[j]) ==> MakePair(s, completes[j]) in r
    ensures |r| <= |completes|
    ensures NoDuplicates(completes) ==> NoDuplicates(r)
  {
    if |completes| == 0 then []
    else
      var tail := MatchesOf(s, completes[1..]);
      assert forall c :: c in completes[1..] ==> c in completes;
      assert forall j :: 1 <= j < |completes| ==> completes[j] == completes[1..][j - 1];
      var r := if Matches(s, completes[0]) then [MakePair(s, completes[0])] + tail else tail;
      assert NoDuplicates(completes) ==> NoDuplicates(r) by {
        if NoDuplicates(completes) {
          NoDuplicatesTail(completes);
          if Matches(s, completes[0]) {
            AppendNoDuplicates([MakePair(s, completes[0])], tail);
          }
        }
      }
      r
  }

  /** The inner merge: every matching (start, complete) combination. */
  function Join(starts: seq<Tagged>, completes: seq<Tagged>): (r: seq<Pair>)
    ensures forall k :: 0 <= k < |r| ==> r[k].start in starts && r[k].complete in completes && Matches(r[k].start, r[k].complete)
    ensures forall k :: 0 <= k < |r| ==> r[k] == MakePair(r[k].start, r[k].complete)
    ensures forall i, j :: 0 <= i < |starts| && 0 <= j < |completes| && Matches(starts[i], completes[j]) ==>
              MakePair(starts[i], completes[j]) in r
    ensures NoDuplicates(starts) && NoDuplicates(completes) ==> NoDuplicates(r)
    decreases |starts|, 1
  {
    if |starts| == 0 then []
    else
      var head := MatchesOf(starts[0], completes);
      var tail := Join(starts[1..], completes);
      assert forall s :: s in starts[1..] ==> s in starts;
      assert forall i :: 1 <= i < |starts| ==> starts[i] == starts[1..][i - 1];
      JoinStepDistinct(starts, completes);
      head + tail
  }

  /** The first start's pairs and the other starts' pairs share no pair. */
  lemma {:induction false} JoinStepDistinct(starts: seq<Tagged>, completes: seq<Tagged>)
    requires |starts| > 0
    ensures NoDuplicates(starts) && NoDuplicates(completes) ==>
              NoDuplicates(MatchesOf(starts[0], completes) + Join(starts[1..], completes))
    decreases |starts|, 0
  {
    if NoDuplicates(starts) && NoDuplicates(completes) {
      NoDuplicatesTail(starts);
      AppendNoDuplicates(MatchesOf(starts[0], completes), Join(starts[1..], completes));
    }
  }

  /** The pairs whose duration is not negative, in order. */
  function NonNegative(ps: seq<Pair>): (r: seq<Pair>)
    ensures forall p :: p in r <==> p in ps && p.seconds >= 0.0
    ensures |r| <= |ps|
    ensures NoDuplicates(ps) ==> NoDuplicates(r)
  {
    if |ps| == 0 then []
    else
      var tail := NonNegative(ps[1..]);
      assert forall p :: p in ps <==> p == ps[0] || p in ps[1..];
      var r := if ps[0].seconds >= 0.0 then [ps[0]] + tail else tail;
      assert NoDuplicates(ps) ==> NoDuplicates(r) by {
        if NoDuplicates(ps) {
          NoDuplicatesTail(ps);
          if ps[0].seconds >= 0.0 {
            AppendNoDuplicates([ps[0]], tail);
          }
        }
      }
      r
  }

  /** Sort key of the result: case, then start time. */
  function ByCaseAndStart(p: Pair): SortKey {
    SortKey(p.start.event.caseId, p.start.event.timestamp)
  }

  /** The tagged rows of one transition. */
  function TaggedWithTransition(rows: seq<Tagged>, lifecycle: string): (r: seq<Tagged>)
    ensures forall i :: 0 <= i < |r| ==> r[i].event.transition == lifecycle && r[i] in rows
    ensures forall i :: 0 <= i < |rows| && rows[i].event.transition == lifecycle ==> rows[i] in r
    ensures |r| <= |rows|
    ensures NoDuplicates(rows) ==> NoDuplicates(r)
  {
    if |rows| == 0 then []
    else
      var tail := TaggedWithTransition(rows[1..], lifecycle);
      assert forall t :: t in rows[1..] ==> t in rows;
      assert forall i :: 1 <= i < |rows| ==> rows[i] == rows[1..][i - 1];
      var r := if rows[0].event.transition == lifecycle then [rows[0]] + tail else tail;
      assert NoDuplicates(rows) ==> NoDuplicates(r) by {
        if NoDuplicates(rows) {
          NoDuplicatesTail(rows);
          if rows[0].event.transition == lifecycle {
            assert forall t :: t in tail ==> t in rows[1..];
            AppendNoDuplicates([rows[0]], tail);
          }
        }
      }
      r
  }

  /** A start row and a complete row that the merge pairs and the duration
      filter keeps. */
  predicate Kept(s: Tagged, c: Tagged) {
    && s.event.transition == StartLabel && c.event.transition == CompleteLabel
    && Matches(s, c) && c.event.timestamp >= s.event.timestamp
  }

  /** The merge followed by the duration filter, before sorting: a pair is
      present exactly when its rows are in the input and `Kept`. */
  function MatchedPairs(rows: seq<Tagged>): (r: seq<Pair>)
    ensures forall p :: p in r ==>
              p.start in rows && p.complete in rows && Kept(p.start, p.complete) && p == MakePair(p.start, p.complete)
    ensures forall i, j :: 0 <= i < |rows| && 0 <= j < |rows| && Kept(rows[i], rows[j]) ==>
              MakePair(rows[i], rows[j]) in r
    ensures NoDuplicates(rows) ==> NoDuplicates(r)
  {
    var kept := NonNegative(Join(TaggedWithTransition(rows, StartLabel), TaggedWithTransition(rows, CompleteLabel)));
    KeptSurviveFilter(rows);
    kept
  }

  /** Every kept combination survives the merge and the duration filter. */
  lemma {:induction false} KeptSurviveFilter(rows: seq<Tagged>)
    ensures forall i, j :: 0 <= i < |rows| && 0 <= j < |rows| && Kept(rows[i], rows[j]) ==>
              MakePair(rows[i], rows[j]) in
                NonNegative(Join(TaggedWithTransition(rows, StartLabel), TaggedWithTransition(rows, CompleteLabel)))
  {
    forall i, j | 0 <= i < |rows| && 0 <= j < |rows| && Kept(rows[i], rows[j])
      ensures MakePair(rows[i], rows[j]) in
                NonNegative(Join(TaggedWithTransition(rows, StartLabel), TaggedWithTransition(rows, CompleteLabel)))
    {
      JoinFindsKept(rows, i, j);
    }
  }

  lemma {:induction false} JoinFindsKept(rows: seq<Tagged>, i: nat, j: nat)
    requires i < |rows| && j < |rows| && Kept(rows[i], rows[j])
    ensures MakePair(rows[i], rows[j]) in Join(TaggedWithTransition(rows, StartLabel), TaggedWithTransition(rows, CompleteLabel))
  {
    var starts := TaggedWithTransition(rows, StartLabel);
    var completes := TaggedWithTransition(rows, CompleteLabel);
    var a :| 0 <= a < |starts| && starts[a] == rows[i];
    var b :| 0 <= b < |completes| && completes[b] == rows[j];
  }

  /** `start_end_event_log_all`: exactly the matching start/complete pairs
      of non-negative duration, sorted by case and then start time. */
  function StartEndEventLog(rows: seq<Tagged>): (r: seq<Pair>)
    ensures forall p :: p in r ==>
              p.start in rows && p.complete in rows && Kept(p.start, p.complete) && p == MakePair(p.start, p.complete)
    ensures forall i, j :: 0 <= i < |rows| && 0 <= j < |rows| && Kept(rows[i], rows[j]) ==>
              MakePair(rows[i], rows[j]) in r
    ensures SortedBy(r, ByCaseAndStart)
    ensures NoDuplicates(rows) ==> NoDuplicates(r)
  {
    var kept := MatchedPairs(rows);
    var sorted := SortBy(kept, ByCaseAndStart);
    assert NoDuplicates(rows) ==> NoDuplicates(sorted) by {
      if NoDuplicates(rows) {
        PermutationKeepsNoDuplicates(kept, sorted);
      }
    }
    assert forall p :: p in sorted <==> p in kept by {
      forall p ensures p in sorted <==> p in kept {
        assert p in sorted <==> p in multiset(sorted);
      }
    }
    sorted
  }

  /** The script around `start_end_event_log_all`: tag the start rows and
      the complete rows separately, concatenate them, and pair them. The
      pairs are kept start/complete combinations, sorted by case and start. */
  function PairLog(log: seq<LogEvent>): (r: seq<Pair>)
    ensures forall p :: p in r ==> Kept(p.start, p.complete) && p == MakePair(p.start, p.complete)
    ensures SortedBy(r, ByCaseAndStart)
    ensures NoDuplicates(r)
  {
    var starts := Tag(WithTransition(log, StartLabel));
    var completes := Tag(WithTransition(log, CompleteLabel));
    TaggedRowsDistinct(log);
    StartEndEventLog(starts + completes)
  }

  /** Tagging gives every row of a transition a different tagged row: two
      rows of one group differ in their index. */
  lemma {:induction false} TagDistinct(evs: seq<LogEvent>)
    ensures NoDuplicates(Tag(evs))
  {
    var t := Tag(evs);
    forall i, j | 0 <= i < j < |t| ensures t[i] != t[j] {
      if t[i] == t[j] {
        TagKeysUnique(evs, i, j);
      }
    }
  }

  /** The tagged start rows and complete rows, concatenated, are all
      different rows. */
  lemma {:induction false} TaggedRowsDistinct(log: seq<LogEvent>)
    ensures NoDuplicates(Tag(WithTransition(log, StartLabel)) + Tag(WithTransition(log, CompleteLabel)))
  {
    var S, C := WithTransition(log, StartLabel), WithTransition(log, CompleteLabel);
    TagDistinct(S);
    TagDistinct(C);
    TagKeepsTransition(S, StartLabel);
    TagKeepsTransition(C, CompleteLabel);
    assert StartLabel != CompleteLabel;
    AppendNoDuplicates(Tag(S), Tag(C));
  }

  /** Every pair joins a start and a complete of the same case and activity
      with the same occurrence index, and the duration is not negative. */
  lemma {:induction false} PairsAgreeOnIndex(log: seq<LogEvent>)
    ensures forall p :: p in PairLog(log) ==>
              && p.start.event in log && p.start.event.transition == StartLabel
              && p.complete.event in log && p.complete.event.transition == CompleteLabel
              && SameGroup(p.start.event, p.complete.event)
              && p.start.index == p.complete.index
              && p.seconds == p.complete.event.timestamp - p.start.event.timestamp >= 0.0
  {
    forall p | p in PairLog(log)
      ensures p.start.event in log && p.start.event.transition == StartLabel
      ensures p.complete.event in log && p.complete.event.transition == CompleteLabel
      ensures SameGroup(p.start.event, p.complete.event)
      ensures p.start.index == p.complete.index
      ensures p.seconds == p.complete.event.timestamp - p.start.event.timestamp >= 0.0
    {
      PairAgreesOnIndex(log, p);
    }
  }

  /** One pair of `PairsAgreeOnIndex`. */
  lemma {:induction false} PairAgreesOnIndex(log: seq<LogEvent>, p: Pair)
    requires p in PairLog(log)
    ensures p.start.event in log && p.start.event.transition == StartLabel
    ensures p.complete.event in log && p.complete.event.transition == CompleteLabel
    ensures SameGroup(p.start.event, p.complete.event)
    ensures p.start.index == p.complete.index
    ensures p.seconds == p.complete.event.timestamp - p.start.event.timestamp >= 0.0
  {
    var rows := Tag(WithTransition(log, StartLabel)) + Tag(WithTransition(log, CompleteLabel));
    assert p.start in rows && p.complete in rows && Kept(p.start, p.complete);
    TaggedRowOfLog(log, p.start);
    TaggedRowOfLog(log, p.complete);
    EventIdDeterminesIndex(p.start.event, p.complete.event, p.start.index, p.complete.index);
  }

  /** A row of the tagged halves is a log event carrying its own identifier. */
  lemma {:induction false} TaggedRowOfLog(log: seq<LogEvent>, t: Tagged)
    requires t in Tag(WithTransition(log, StartLabel)) + Tag(WithTransition(log, CompleteLabel))
    ensures t.event in log
    ensures t.eventId == EventId(t.event, t.index)
  {
    var S, C := WithTransition(log, StartLabel), WithTransition(log, CompleteLabel);
    if t in Tag(S) {
      var k := TagIndex(S, t);
    } else {
      var k := TagIndex(C, t);
    }
  }

  /** The pairing is one-to-one: a start row is paired with at most one
      complete row, and a complete row with at most one start row. */
  lemma {:induction false} PairingOneToOne(log: seq<LogEvent>)
    ensures forall p, q :: p in PairLog(log) && q in PairLog(log) && p.start == q.start ==> p.complete == q.complete
    ensures forall p, q :: p in PairLog(log) && q in PairLog(log) && p.complete == q.complete ==> p.start == q.start
  {
    forall p, q | p in PairLog(log) && q in PairLog(log)
      ensures p.start == q.start ==> p.complete == q.complete
      ensures p.complete == q.complete ==> p.start == q.start
    {
      PairsShareNoRow(log, p, q);
    }
  }

  /** One pair of `PairingOneToOne`. */
  lemma {:induction false} PairsShareNoRow(log: seq<LogEvent>, p: Pair, q: Pair)
    requires p in PairLog(log) && q in PairLog(log)
    ensures p.start == q.start ==> p.complete == q.complete
    ensures p.complete == q.complete ==> p.start == q.start
  {
    var S, C := WithTransition(log, StartLabel), WithTransition(log, CompleteLabel);
    var rows := Tag(S) + Tag(C);
    assert p.start in rows && p.complete in rows && Kept(p.start, p.complete);
    assert q.start in rows && q.complete in rows && Kept(q.start, q.complete);
    if p.start == q.start {
      var a := CompleteRowOf(log, p.complete);
      var b := CompleteRowOf(log, q.complete);
      TagKeysUnique(C, a, b);
    }
    if p.complete == q.complete {
      var a := StartRowOf(log, p.start);
      var b := StartRowOf(log, q.start);
      TagKeysUnique(S, a, b);
    }
  }

  /** The complete row a pair uses is one of the tagged complete rows. */
  lemma {:induction false} CompleteRowOf(log: seq<LogEvent>, t: Tagged) returns (b: nat)
    requires t in Tag(WithTransition(log, StartLabel)) + Tag(WithTransition(log, CompleteLabel))
    requires t.event.transition == CompleteLabel
    ensures b < |WithTransition(log, CompleteLabel)| && Tag(WithTransition(log, CompleteLabel))[b] == t
  {
    var S := WithTransition(log, StartLabel);
    TagKeepsTransition(S, StartLabel);
    b := TagIndex(WithTransition(log, CompleteLabel), t);
  }

  /** The start row a pair uses is one of the tagged start rows. */
  lemma {:induction false} StartRowOf(log: seq<LogEvent>, t: Tagged) returns (a: nat)
    requires t in Tag(WithTransition(log, StartLabel)) + Tag(WithTransition(log, CompleteLabel))
    requires t.event.transition == StartLabel
    ensures a < |WithTransition(log, StartLabel)| && Tag(WithTransition(log, StartLabel))[a] == t
  {
    var C := WithTransition(log, CompleteLabel);
    TagKeepsTransition(C, CompleteLabel);
    a := TagIndex(WithTransition(log, StartLabel), t);
  }

  /** The position of a tagged row among the tagged rows. */
  lemma {:induction false} TagIndex(evs: seq<LogEvent>, t: Tagged) returns (k: nat)
    requires t in Tag(evs)
    ensures k < |evs| && Tag(evs)[k] == t
  {
    var r := Tag(evs);
    k :| 0 <= k < |r| && r[k] == t;
  }

  /** Tagging keeps the rows' transition. */
  lemma {:induction false} TagKeepsTransition(evs: seq<LogEvent>, lifecycle: string)
    requires forall i :: 0 <= i < |evs| ==> evs[i].transition == lifecycle
    ensures forall t :: t in Tag(evs) ==> t.event.transition == lifecycle
  {
    forall t | t in Tag(evs) ensures t.event.transition == lifecycle {
      var k := TagIndex(evs, t);
    }
  }

  /** A pair joins one of the tagged start rows to one of the tagged
      complete rows. */
  lemma {:induction false} PairRows(log: seq<LogEvent>, p: Pair)
    requires p in PairLog(log)
    ensures p.start in Tag(WithTransition(log, StartLabel))
    ensures p.complete in Tag(WithTransition(log, CompleteLabel))
    ensures Matches(p.start, p.complete) && p == MakePair(p.start, p.complete)
  {
    var rows := Tag(WithTransition(log, StartLabel)) + Tag(WithTransition(log, CompleteLabel));
    assert p.start in rows && p.complete in rows && Kept(p.start, p.complete);
    var a := StartRowOf(log, p.start);
    var b := CompleteRowOf(log, p.complete);
  }

  predicate InGroupOf(e: LogEvent, c: string, a: string) {
    e.caseId == c && e.activity == a
  }

  /** Distinct pairs with one-to-one rows, all drawn from the rows `T`: per
      group there are at most as many pairs as rows of `T` in the group.
      `byStart` chooses which side of the pairs is counted against `T`. */
  lemma {:induction false} DistinctPairsBound(r: seq<Pair>, T: seq<Tagged>, byStart: bool, c: string, a: string)
    requires NoDuplicates(r)
    requires forall k :: 0 <= k < |r| ==> Side(r[k], byStart) in T && SameGroup(r[k].start.event, r[k].complete.event)
    requires forall k :: 0 <= k < |r| ==> r[k] == MakePair(r[k].start, r[k].complete)
    requires forall k1, k2 :: 0 <= k1 < |r| && 0 <= k2 < |r| && Side(r[k1], byStart) == Side(r[k2], byStart) ==>
               r[k1].start == r[k2].start && r[k1].complete == r[k2].complete
    ensures |set k | 0 <= k < |r| && InGroupOf(r[k].start.event, c, a)| <=
            |set i | 0 <= i < |T| && InGroupOf(T[i].event, c, a)|
  {
    var A := set k | 0 <= k < |r| && InGroupOf(r[k].start.event, c, a);
    var B := set i | 0 <= i < |T| && InGroupOf(T[i].event, c, a);
    var f := (k: int) requires 0 <= k < |r| && Side(r[k], byStart) in T => IndexOf(T, Side(r[k], byStart));
    forall k | k in A ensures f.requires(k) && f(k) in B {
      assert T[f(k)] == Side(r[k], byStart);
    }
    forall k1, k2 | k1 in A && k2 in A && f(k1) == f(k2) ensures k1 == k2 {
      assert Side(r[k1], byStart) == Side(r[k2], byStart);
    }
    InjectionBound(A, B, f);
  }

  /** The start row or the complete row of a pair. */
  function Side(p: Pair, byStart: bool): Tagged {
    if byStart then p.start else p.complete
  }

  /** The result in the index form `DistinctPairsBound` reads: duplicate
      free, rows from the two tagged halves, one-to-one. */
  lemma {:induction false} PairLogShape(log: seq<LogEvent>)
    ensures var r := PairLog(log);
            && NoDuplicates(r)
            && (forall k :: 0 <= k < |r| ==>
                  && r[k].start in Tag(WithTransition(log, StartLabel))
                  && r[k].complete in Tag(WithTransition(log, CompleteLabel))
                  && SameGroup(r[k].start.event, r[k].complete.event)
                  && r[k] == MakePair(r[k].start, r[k].complete))
            && (forall k1, k2 :: 0 <= k1 < |r| && 0 <= k2 < |r| && (r[k1].start == r[k2].start || r[k1].complete == r[k2].complete)
                  ==> r[k1].start == r[k2].start && r[k1].complete == r[k2].complete)
  {
    var r := PairLog(log);
    forall k | 0 <= k < |r|
      ensures r[k].start in Tag(WithTransition(log, StartLabel))
      ensures r[k].complete in Tag(WithTransition(log, CompleteLabel))
      ensures SameGroup(r[k].start.event, r[k].complete.event)
      ensures r[k] == MakePair(r[k].start, r[k].complete)
    {
      PairRows(log, r[k]);
    }
    PairingOneToOne(log);
  }

  /** Tagging keeps each row's group. */
  lemma {:induction false} TagGroupRows(evs: seq<LogEvent>, c: string, a: string)
    ensures (set i | 0 <= i < |Tag(evs)| && InGroupOf(Tag(evs)[i].event, c, a)) ==
            (set i | 0 <= i < |evs| && InGroupOf(evs[i], c, a))
  {
  }

  /** Per (case, activity) group, the result has at most as many rows as
      the group has start rows. */
  lemma {:induction false} PairsPerGroupBelowStarts(log: seq<LogEvent>, c: string, a: string)
    ensures var r, S := PairLog(log), WithTransition(log, StartLabel);
            |set k | 0 <= k < |r| && InGroupOf(r[k].start.event, c, a)| <= |set i | 0 <= i < |S| && InGroupOf(S[i], c, a)|
  {
    var r, S := PairLog(log), WithTransition(log, StartLabel);
    PairLogShape(log);
    DistinctPairsBound(r, Tag(S), true, c, a);
    TagGroupRows(S, c, a);
  }

  /** Per (case, activity) group, the result has at most as many rows as
      the group has complete rows. */
  lemma {:induction false} PairsPerGroupBelowCompletes(log: seq<LogEvent>, c: string, a: string)
    ensures var r, C := PairLog(log), WithTransition(log, CompleteLabel);
            |set k | 0 <= k < |r| && InGroupOf(r[k].start.event, c, a)| <= |set j | 0 <= j < |C| && InGroupOf(C[j], c, a)|
  {
    var r, C := PairLog(log), WithTransition(log, CompleteLabel);
    PairLogShape(log);
    DistinctPairsBound(r, Tag(C), false, c, a);
    TagGroupRows(C, c, a);
  }

  /** Every start whose same-index complete in its (case, activity) group
      is not earlier is paired with that complete. */
  lemma {:induction false} PairingComplete(log: seq<LogEvent>)
    ensures var S, C := WithTransition(log, StartLabel), WithTransition(log, CompleteLabel);
            forall a, b :: 0 <= a < |S| && 0 <= b < |C| && SameGroup(S[a], C[b]) && Rank(S, a) == Rank(C, b) &&
                           C[b].timestamp >= S[a].timestamp ==>
                             MakePair(Tag(S)[a], Tag(C)[b]) in PairLog(log)
  {
    var S, C := WithTransition(log, StartLabel), WithTransition(log, CompleteLabel);
    forall a, b | 0 <= a < |S| && 0 <= b < |C| && SameGroup(S[a], C[b]) && Rank(S, a) == Rank(C, b) &&
                  C[b].timestamp >= S[a].timestamp
      ensures MakePair(Tag(S)[a], Tag(C)[b]) in PairLog(log)
    {
      SameIndexKept(S, C, a, b);
      KeptIsPaired(Tag(S), Tag(C), a, b);
    }
  }

  /** A start and a complete of one group with equal index and no negative
      duration satisfy the merge keys and the filter. */
  lemma {:induction false} SameIndexKept(S: seq<LogEvent>, C: seq<LogEvent>, a: nat, b: nat)
    requires a < |S| && b < |C|
    requires forall i :: 0 <= i < |S| ==> S[i].transition == StartLabel
    requires forall j :: 0 <= j < |C| ==> C[j].transition == CompleteLabel
    requires SameGroup(S[a], C[b]) && Rank(S, a) == Rank(C, b) && C[b].timestamp >= S[a].timestamp
    ensures Kept(Tag(S)[a], Tag(C)[b])
  {
    EventIdDeterminesIndex(S[a], C[b], Tag(S)[a].index, Tag(C)[b].index);
  }

  /** A kept start/complete combination of the two tagged halves is in the
      result of `start_end_event_log_all` on their concatenation. */
  lemma {:induction false} KeptIsPaired(starts: seq<Tagged>, completes: seq<Tagged>, a: nat, b: nat)
    requires a < |starts| && b < |completes| && Kept(starts[a], completes[b])
    ensures MakePair(starts[a], completes[b]) in StartEndEventLog(starts + completes)
  {
    var rows := starts + completes;
    assert rows[a] == starts[a] && rows[|starts| + b] == completes[b];
  }

  /** The result is ordered by case (Python string order) and, within a
      case, by start time. */
  lemma {:induction false} PairLogOrdered(log: seq<LogEvent>)
    ensures forall i, j :: 0 <= i < j < |PairLog(log)| ==>
              if PairLog(log)[i].start.event.caseId == PairLog(log)[j].start.event.caseId
              then PairLog(log)[i].start.event.timestamp <= PairLog(log)[j].start.event.timestamp
              else LexLe(PairLog(log)[i].start.event.caseId, PairLog(log)[j].start.event.caseId)
  {
    var r := PairLog(log);
    forall i, j | 0 <= i < j < |r|
      ensures KeyLe(ByCaseAndStart(r[i]), ByCaseAndStart(r[j]))
    {
    }
  }
}
