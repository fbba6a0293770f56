/** Start-time estimation for a log that records only completion times
    (`testupdatedestimator.py`): per-resource multitasking from a sliding
    window, typical activity durations from case-internal gaps, and the
    per-row duration rules that place each start strictly before its
    completion. Times are minutes; `np.percentile` and `random.uniform`
    draws are inputs. */
module StartEstimation {
  import opened Wrappers
  import opened Seqs
  import opened Ordering
  import opened Distributions

  /** One row of the log. */
  datatype Event = Event(caseId: string, activity: string, resource: string, completion: real)

  /** Length of the look-back window of the concurrency count. */
  const WindowMinutes: real := 60.0
  /** Gaps outside [MinGap, MaxGap] minutes are not recorded. */
  const MinGap: real := 1.0
  const MaxGap: real := 1440.0
  /** Typical duration when no gap at all was recorded. */
  const FallbackDuration: real := 30.0
  /** Cap of the multitask factor. */
  const MaxFactor: real := 10.0
  /** Share of the elapsed time counted as work at factor 1, and its floor. */
  const WorkShare: real := 0.70
  const MinShare: real := 0.1
  /** Longest adjusted duration kept as it is. */
  const MaxDuration: real := 360.0
  /** Lower bound of the uniform redraw of an over-long duration. */
  const RedrawMin: real := 30.0
  /** The activity that gets a short random duration in a case that starts with it. */
  const FirstActivity: string := "Assign seriousness"

  /** The sort of `df.sort_values(by=finishtime_col)`. */
  function ByCompletion(e: Event): SortKey {
    SortKey("", e.completion)
  }

  function SortByCompletion(log: seq<Event>): (sorted: seq<Event>)
    ensures multiset(sorted) == multiset(log)
    ensures forall i, j :: 0 <= i < j < |sorted| ==> sorted[i].completion <= sorted[j].completion
  {
    var sorted := SortBy(log, ByCompletion);
    assert forall i, j :: 0 <= i < j < |sorted| ==> KeyLe(ByCompletion(sorted[i]), ByCompletion(sorted[j]));
    sorted
  }

  // ---------------------------------------------------------------------
  // Columns of the log

  function Completions(log: seq<Event>): seq<real> {
    seq(|log|, i requires 0 <= i < |log| => log[i].completion)
  }

  function Resources(log: seq<Event>): seq<string> {
    seq(|log|, i requires 0 <= i < |log| => log[i].resource)
  }

  function CaseIds(log: seq<Event>): seq<string> {
    seq(|log|, i requires 0 <= i < |log| => log[i].caseId)
  }

  // ---------------------------------------------------------------------
  // analyze_multitasking

  /** `resource_timelines[resource]`: the completion times of one resource,
      in log order; `TimesOfExact` places each of them. */
  function TimesOf(log: seq<Event>, resource: string): (ts: seq<real>)
    ensures |ts| == Occurrences(Resources(log), resource, |log|)
    ensures |ts| > 0 <==> exists i :: 0 <= i < |log| && log[i].resource == resource
  {
    assert resource in Resources(log) <==> exists i :: 0 <= i < |log| && log[i].resource == resource by {
      if resource in Resources(log) {
        var i :| 0 <= i < |log| && Resources(log)[i] == resource;
      }
      if exists i :: 0 <= i < |log| && log[i].resource == resource {
        var i :| 0 <= i < |log| && log[i].resource == resource;
        assert Resources(log)[i] == resource;
      }
    }
    Select(Completions(log), Resources(log), resource)
  }

  /** The timeline holds one entry per row of the resource and nothing else:
      the resource's `m`-th row (in log order) supplies entry `m`. */
  lemma {:induction false} TimesOfExact(log: seq<Event>, resource: string)
    ensures forall i :: 0 <= i < |log| && log[i].resource == resource ==>
              Occurrences(Resources(log), resource, i) < |TimesOf(log, resource)| &&
              TimesOf(log, resource)[Occurrences(Resources(log), resource, i)] == log[i].completion
    ensures forall m :: 0 <= m < |TimesOf(log, resource)| ==>
              ComesFrom(Completions(log), Resources(log), resource, |log|, m, TimesOf(log, resource)[m])
  {
    SelectExact(Completions(log), Resources(log), resource);
    forall i | 0 <= i < |log| && log[i].resource == resource
      ensures Occurrences(Resources(log), resource, i) < |TimesOf(log, resource)| &&
              TimesOf(log, resource)[Occurrences(Resources(log), resource, i)] == log[i].completion
    {
      assert Resources(log)[i] == resource && Completions(log)[i] == log[i].completion;
    }
  }

  /** Over the completion-sorted log every timeline is already in time
      order, so the re-sort of each timeline changes nothing. */
  lemma {:induction false} TimesOfSorted(log: seq<Event>, resource: string)
    requires forall i, j :: 0 <= i < j < |log| ==> log[i].completion <= log[j].completion
    ensures forall a, b :: 0 <= a < b < |TimesOf(log, resource)| ==>
              TimesOf(log, resource)[a] <= TimesOf(log, resource)[b]
  {
    SelectSorted(Completions(log), Resources(log), resource, (t: real) => t);
  }

  predicate InWindow(u: real, t: real) {
    t - WindowMinutes <= u <= t
  }

  /** The number of completions of the timeline within the hour up to and
      including `t`. */
  function WindowCount(ts: seq<real>, t: real): (c: nat)
    ensures c <= |ts|
    ensures t in ts ==> c >= 1
  {
    if |ts| == 0 then 0
    else
      var n := |ts| - 1;
      assert t in ts ==> t in ts[..n] || t == ts[n] by {
        assert ts == ts[..n] + [ts[n]];
      }
      WindowCount(ts[..n], t) + (if InWindow(ts[n], t) then 1 else 0)
  }

  /** The window count read off the timeline directly: the number of
      positions whose completion lies in `[t - 60, t]`. */
  lemma {:induction false} WindowCountExact(ts: seq<real>, t: real)
    ensures WindowCount(ts, t) == |set i | 0 <= i < |ts| && InWindow(ts[i], t)|
  {
    if |ts| > 0 {
      var n := |ts| - 1;
      WindowCountExact(ts[..n], t);
      var before := set i | 0 <= i < n && InWindow(ts[..n][i], t);
      var all := set i | 0 <= i < |ts| && InWindow(ts[i], t);
      assert before == set i | 0 <= i < n && InWindow(ts[i], t);
      if InWindow(ts[n], t) {
        assert all == before + {n};
      } else {
        assert all == before;
      }
    }
  }

  /** `concurrency1` of a timeline: the mean, over its points, of the number
      of its completions in the hour up to each point. */
  lemma {:induction false} ConcurrencyIsMeanWindow(ts: seq<real>)
    requires |ts| > 0
    ensures Concurrency(ts) ==
            Mean(seq(|ts|, i requires 0 <= i < |ts| => |set k | 0 <= k < |ts| && InWindow(ts[k], ts[i])| as real))
  {
    var counts := seq(|ts|, i requires 0 <= i < |ts| => WindowCount(ts, ts[i]) as real);
    var sizes := seq(|ts|, i requires 0 <= i < |ts| => |set k | 0 <= k < |ts| && InWindow(ts[k], ts[i])| as real);
    forall i | 0 <= i < |ts| ensures counts[i] == sizes[i] {
      WindowCountExact(ts, ts[i]);
    }
    assert counts == sizes;
  }

  /** The mean window count over the timeline's own points. */
  function Concurrency(ts: seq<real>): (c: real)
    requires |ts| > 0
    ensures 1.0 <= c <= |ts| as real
  {
    var counts := seq(|ts|, i requires 0 <= i < |ts| => WindowCount(ts, ts[i]) as real);
    MeanBounds(counts, 1.0, |ts| as real);
    Mean(counts)
  }

  /** `analyze_multitasking`: the concurrency of every resource with at least
      two completions; a resource with at most one is absent. */
  function AnalyzeMultitasking(log: seq<Event>): (conc: map<string, real>)
    ensures forall i :: 0 <= i < |log| ==>
              (log[i].resource in conc <==> |TimesOf(SortByCompletion(log), log[i].resource)| > 1)
    ensures forall r :: r in conc ==> |TimesOf(SortByCompletion(log), r)| > 1
    ensures forall r :: r in conc ==> 1.0 <= conc[r] <= |TimesOf(SortByCompletion(log), r)| as real
    ensures forall r :: r in conc ==> conc[r] == Concurrency(TimesOf(SortByCompletion(log), r))
  {
    var sorted := SortByCompletion(log);
    var resources := set i | 0 <= i < |log| :: log[i].resource;
    map r | r in resources && |TimesOf(sorted, r)| > 1 :: Concurrency(TimesOf(sorted, r))
  }

  // ---------------------------------------------------------------------
  // Gaps and typical durations

  /** `caseSeq333[c]`: the events of one case, in log order;
      `CaseEventsExact` places each of them. */
  function CaseEvents(log: seq<Event>, c: string): (evs: seq<Event>)
    ensures |evs| == Occurrences(CaseIds(log), c, |log|)
    ensures |evs| > 0 <==> exists i :: 0 <= i < |log| && log[i].caseId == c
    ensures forall m :: 0 <= m < |evs| ==> evs[m].caseId == c
  {
    var evs := Select(log, CaseIds(log), c);
    SelectExact(log, CaseIds(log), c);
    assert c in CaseIds(log) <==> exists i :: 0 <= i < |log| && log[i].caseId == c by {
      if c in CaseIds(log) {
        var i :| 0 <= i < |log| && CaseIds(log)[i] == c;
      }
    }
    assert forall m :: 0 <= m < |evs| ==> evs[m].caseId == c by {
      forall m | 0 <= m < |evs| ensures evs[m].caseId == c {
        assert ComesFrom(log, CaseIds(log), c, |log|, m, evs[m]);
      }
    }
    evs
  }

  /** A case's sequence holds one entry per row of the case and nothing
      else: the case's `m`-th row (in log order) supplies entry `m`. */
  lemma {:induction false} CaseEventsExact(log: seq<Event>, c: string)
    ensures forall i :: 0 <= i < |log| && log[i].caseId == c ==>
              Occurrences(CaseIds(log), c, i) < |CaseEvents(log, c)| &&
              CaseEvents(log, c)[Occurrences(CaseIds(log), c, i)] == log[i]
    ensures forall m :: 0 <= m < |CaseEvents(log, c)| ==>
              ComesFrom(log, CaseIds(log), c, |log|, m, CaseEvents(log, c)[m])
  {
    SelectExact(log, CaseIds(log), c);
    forall i | 0 <= i < |log| && log[i].caseId == c
      ensures Occurrences(CaseIds(log), c, i) < |CaseEvents(log, c)| &&
              CaseEvents(log, c)[Occurrences(CaseIds(log), c, i)] == log[i]
    {
      assert CaseIds(log)[i] == c;
    }
  }

  /** Over the completion-sorted log a case's events are in time order, so
      the per-case sort by timestamp changes nothing. */
  lemma {:induction false} CaseEventsSorted(log: seq<Event>, c: string)
    requires forall i, j :: 0 <= i < j < |log| ==> log[i].completion <= log[j].completion
    ensures forall a, b :: 0 <= a < b < |CaseEvents(log, c)| ==>
              CaseEvents(log, c)[a].completion <= CaseEvents(log, c)[b].completion
  {
    SelectSorted(log, CaseIds(log), c, (e: Event) => e.completion);
  }

  /** A recorded gap: the activity it follows and its length in minutes. */
  datatype Gap = Gap(activity: string, minutes: real)

  /** The gap from the `i`-th to the next event of a case. */
  function GapAt(evs: seq<Event>, i: nat): Gap
    requires i + 1 < |evs|
  {
    Gap(evs[i].activity, evs[i + 1].completion - evs[i].completion)
  }

  predicate Recorded(g: Gap) {
    MinGap <= g.minutes <= MaxGap
  }

  /** The gaps between consecutive events of a case, recorded or not. */
  function Steps(evs: seq<Event>): (steps: seq<Gap>)
    ensures |steps| == if |evs| < 2 then 0 else |evs| - 1
  {
    if |evs| < 2 then [] else seq(|evs| - 1, i requires 0 <= i < |evs| - 1 => GapAt(evs, i))
  }

  function RecordedFlags(steps: seq<Gap>): seq<bool> {
    seq(|steps|, i requires 0 <= i < |steps| => Recorded(steps[i]))
  }

  /** The gaps of one case between consecutive events whose length lies in
      [MinGap, MaxGap], in order; `CaseGapsExact` places each of them. */
  function CaseGaps(evs: seq<Event>): (gs: seq<Gap>)
    ensures |gs| == Occurrences(RecordedFlags(Steps(evs)), true, |Steps(evs)|)
    ensures forall m :: 0 <= m < |gs| ==> Recorded(gs[m]) && gs[m] in Steps(evs)
  {
    var steps := Steps(evs);
    var gs := Select(steps, RecordedFlags(steps), true);
    SelectExact(steps, RecordedFlags(steps), true);
    assert forall m :: 0 <= m < |gs| ==> Recorded(gs[m]) && gs[m] in steps by {
      forall m | 0 <= m < |gs| ensures Recorded(gs[m]) && gs[m] in steps {
        assert ComesFrom(steps, RecordedFlags(steps), true, |steps|, m, gs[m]);
      }
    }
    gs
  }

  /** Exactly the recorded gaps, each once and in order: the `m`-th recorded
      step of the case supplies entry `m`, and every entry is such a step. */
  lemma {:induction false} CaseGapsExact(evs: seq<Event>)
    ensures forall i :: 0 <= i < |evs| - 1 && Recorded(GapAt(evs, i)) ==>
              Occurrences(RecordedFlags(Steps(evs)), true, i) < |CaseGaps(evs)| &&
              CaseGaps(evs)[Occurrences(RecordedFlags(Steps(evs)), true, i)] == GapAt(evs, i)
    ensures forall m :: 0 <= m < |CaseGaps(evs)| ==>
              ComesFrom(Steps(evs), RecordedFlags(Steps(evs)), true, |Steps(evs)|, m, CaseGaps(evs)[m])
  {
    SelectExact(Steps(evs), RecordedFlags(Steps(evs)), true);
    forall i | 0 <= i < |evs| - 1 && Recorded(GapAt(evs, i))
      ensures Occurrences(RecordedFlags(Steps(evs)), true, i) < |CaseGaps(evs)| &&
              CaseGaps(evs)[Occurrences(RecordedFlags(Steps(evs)), true, i)] == GapAt(evs, i)
    {
      assert Steps(evs)[i] == GapAt(evs, i) && RecordedFlags(Steps(evs))[i];
    }
  }

  /** Every listed case's gaps, cases in the given order. */
  function GapsOf(log: seq<Event>, cases: seq<string>): (gs: seq<Gap>)
    ensures forall g :: g in gs ==> Recorded(g)
  {
    if |cases| == 0 then []
    else
      var own := CaseGaps(CaseEvents(log, cases[0]));
      assert forall g :: g in own ==> Recorded(g) by {
        forall g | g in own ensures Recorded(g) {
          var m :| 0 <= m < |own| && own[m] == g;
        }
      }
      own + GapsOf(log, cases[1..])
  }

  /** A gap is among the listed cases' gaps exactly when it is among the
      gaps of one of them. */
  lemma {:induction false} GapsOfMembers(log: seq<Event>, cases: seq<string>, g: Gap)
    ensures g in GapsOf(log, cases) <==> exists k :: 0 <= k < |cases| && g in CaseGaps(CaseEvents(log, cases[k]))
  {
    if |cases| > 0 {
      GapsOfMembers(log, cases[1..], g);
      if g in GapsOf(log, cases[1..]) {
        var k :| 0 <= k < |cases| - 1 && g in CaseGaps(CaseEvents(log, cases[1..][k]));
        assert cases[1..][k] == cases[k + 1];
      }
      if exists k :: 0 <= k < |cases| && g in CaseGaps(CaseEvents(log, cases[k])) {
        var k :| 0 <= k < |cases| && g in CaseGaps(CaseEvents(log, cases[k]));
        if k > 0 {
          assert cases[1..][k - 1] == cases[k];
        }
      }
    }
  }

  /** The listed cases' gap lists, one block per case. */
  function CaseBlocks(log: seq<Event>, cases: seq<string>): (bs: seq<seq<Gap>>)
    ensures |bs| == |cases|
  {
    seq(|cases|, k requires 0 <= k < |cases| => CaseGaps(CaseEvents(log, cases[k])))
  }

  lemma {:induction false} GapsOfIsConcat(log: seq<Event>, cases: seq<string>)
    ensures GapsOf(log, cases) == Concat(CaseBlocks(log, cases))
  {
    if |cases| > 0 {
      GapsOfIsConcat(log, cases[1..]);
      CaseBlocksTail(log, cases);
    }
  }

  lemma {:induction false} CaseBlocksTail(log: seq<Event>, cases: seq<string>)
    requires |cases| > 0
    ensures Concat(CaseBlocks(log, cases)) == CaseGaps(CaseEvents(log, cases[0])) + Concat(CaseBlocks(log, cases[1..]))
  {
    var blocks := CaseBlocks(log, cases);
    forall k | 0 <= k < |cases| - 1 ensures blocks[1..][k] == CaseBlocks(log, cases[1..])[k] {
      assert cases[1..][k] == cases[k + 1];
    }
    assert blocks[1..] == CaseBlocks(log, cases[1..]);
  }

  /** Each listed case contributes exactly its own gaps, once, as one block
      after the blocks of the cases before it: the list holds every case's
      gaps with their multiplicities, which is what the percentile reads. */
  lemma {:induction false} GapsOfPlacement(log: seq<Event>, cases: seq<string>)
    ensures |GapsOf(log, cases)| == TotalLength(CaseBlocks(log, cases))
    ensures forall k :: 0 <= k < |cases| ==>
              var at := TotalLength(CaseBlocks(log, cases)[..k]);
              at + |CaseGaps(CaseEvents(log, cases[k]))| <= |GapsOf(log, cases)| &&
              GapsOf(log, cases)[at..at + |CaseGaps(CaseEvents(log, cases[k]))|] == CaseGaps(CaseEvents(log, cases[k]))
  {
    GapsOfIsConcat(log, cases);
    ConcatPlacement(CaseBlocks(log, cases));
  }

  /** The cases of the log in order of first appearance (`caseSeq333`'s keys). */
  function CasesOf(log: seq<Event>): (cases: seq<string>)
    ensures NoDuplicates(cases)
    ensures forall c :: c in cases <==> c in CaseIds(log)
  {
    Distinct(CaseIds(log))
  }

  /** `activity_gaps`, flattened: every recorded case-internal gap, all of
      them between 1 and 1440 minutes; `AllGapsMembers` says which. */
  function AllGaps(log: seq<Event>): (gs: seq<Gap>)
    ensures forall m :: 0 <= m < |gs| ==> MinGap <= gs[m].minutes <= MaxGap
  {
    var gs := GapsOf(log, CasesOf(log));
    assert forall m :: 0 <= m < |gs| ==> gs[m] in gs;
    gs
  }

  /** The recorded gaps are the blocks of the log's cases joined end to
      end, each case once and in order of first appearance, so
      `ConcatPlacement` places every case's gaps. */
  lemma {:induction false} AllGapsPlacement(log: seq<Event>)
    ensures NoDuplicates(CasesOf(log))
    ensures forall c :: c in CasesOf(log) <==> exists i :: 0 <= i < |log| && log[i].caseId == c
    ensures AllGaps(log) == Concat(CaseBlocks(log, CasesOf(log)))
  {
    GapsOfIsConcat(log, CasesOf(log));
    forall c ensures c in CasesOf(log) <==> exists i :: 0 <= i < |log| && log[i].caseId == c {
      if c in CaseIds(log) {
        var i :| 0 <= i < |log| && CaseIds(log)[i] == c;
      }
      if exists i :: 0 <= i < |log| && log[i].caseId == c {
        var i :| 0 <= i < |log| && log[i].caseId == c;
        assert CaseIds(log)[i] == c;
      }
    }
  }

  /** A gap is recorded exactly when it is a recorded gap of the case of
      some row of the log. */
  lemma {:induction false} AllGapsMembers(log: seq<Event>, g: Gap)
    ensures g in AllGaps(log) <==> exists i :: 0 <= i < |log| && g in CaseGaps(CaseEvents(log, log[i].caseId))
  {
    var cases := CasesOf(log);
    GapsOfMembers(log, cases, g);
    if g in AllGaps(log) {
      var k :| 0 <= k < |cases| && g in CaseGaps(CaseEvents(log, cases[k]));
      assert cases[k] in CaseIds(log);
      var i :| 0 <= i < |log| && CaseIds(log)[i] == cases[k];
    }
    if exists i :: 0 <= i < |log| && g in CaseGaps(CaseEvents(log, log[i].caseId)) {
      var i :| 0 <= i < |log| && g in CaseGaps(CaseEvents(log, log[i].caseId));
      assert CaseIds(log)[i] == log[i].caseId;
      var k := IndexOf(cases, log[i].caseId);
    }
  }

  function GapMinutes(gaps: seq<Gap>): seq<real> {
    seq(|gaps|, i requires 0 <= i < |gaps| => gaps[i].minutes)
  }

  function GapActs(gaps: seq<Gap>): seq<string> {
    seq(|gaps|, i requires 0 <= i < |gaps| => gaps[i].activity)
  }

  /** `activity_gaps[a]`: the lengths of the gaps that follow activity `a`,
      in recording order; `GapsForExact` places each of them. */
  function GapsFor(gaps: seq<Gap>, a: string): (ms: seq<real>)
    ensures |ms| == Occurrences(GapActs(gaps), a, |gaps|)
    ensures |ms| > 0 <==> exists g :: g in gaps && g.activity == a
    ensures (forall g :: g in gaps ==> Recorded(g)) ==> forall i :: 0 <= i < |ms| ==> MinGap <= ms[i] <= MaxGap
  {
    var ms := Select(GapMinutes(gaps), GapActs(gaps), a);
    SelectExact(GapMinutes(gaps), GapActs(gaps), a);
    assert a in GapActs(gaps) <==> exists g :: g in gaps && g.activity == a by {
      if a in GapActs(gaps) {
        var i :| 0 <= i < |gaps| && GapActs(gaps)[i] == a;
        assert gaps[i] in gaps;
      }
      if exists g :: g in gaps && g.activity == a {
        var g :| g in gaps && g.activity == a;
        var i :| 0 <= i < |gaps| && gaps[i] == g;
        assert GapActs(gaps)[i] == a;
      }
    }
    assert (forall g :: g in gaps ==> Recorded(g)) ==> forall i :: 0 <= i < |ms| ==> MinGap <= ms[i] <= MaxGap by {
      if forall g :: g in gaps ==> Recorded(g) {
        forall m | 0 <= m < |ms| ensures MinGap <= ms[m] <= MaxGap {
          assert ComesFrom(GapMinutes(gaps), GapActs(gaps), a, |gaps|, m, ms[m]);
          var i :| 0 <= i < |gaps| && GapActs(gaps)[i] == a && Occurrences(GapActs(gaps), a, i) == m && ms[m] == GapMinutes(gaps)[i];
          assert gaps[i] in gaps;
        }
      }
    }
    ms
  }

  /** An activity's list holds the length of every gap that follows it and
      nothing else: the `m`-th such gap supplies entry `m`. */
  lemma {:induction false} GapsForExact(gaps: seq<Gap>, a: string)
    ensures forall i :: 0 <= i < |gaps| && gaps[i].activity == a ==>
              Occurrences(GapActs(gaps), a, i) < |GapsFor(gaps, a)| &&
              GapsFor(gaps, a)[Occurrences(GapActs(gaps), a, i)] == gaps[i].minutes
    ensures forall m :: 0 <= m < |GapsFor(gaps, a)| ==>
              ComesFrom(GapMinutes(gaps), GapActs(gaps), a, |gaps|, m, GapsFor(gaps, a)[m])
  {
    SelectExact(GapMinutes(gaps), GapActs(gaps), a);
    forall i | 0 <= i < |gaps| && gaps[i].activity == a
      ensures Occurrences(GapActs(gaps), a, i) < |GapsFor(gaps, a)| &&
              GapsFor(gaps, a)[Occurrences(GapActs(gaps), a, i)] == gaps[i].minutes
    {
      assert GapActs(gaps)[i] == a && GapMinutes(gaps)[i] == gaps[i].minutes;
    }
  }

  /** The activities some recorded gap follows, in order of first recording. */
  function GapActivities(gaps: seq<Gap>): (acts: seq<string>)
    ensures forall a :: a in acts <==> |GapsFor(gaps, a)| > 0
    ensures |acts| <= |gaps|
  {
    var all := GapActs(gaps);
    var acts := Distinct(all);
    assert forall a :: a in acts <==> |GapsFor(gaps, a)| > 0 by {
      forall a ensures a in acts <==> |GapsFor(gaps, a)| > 0 {
        if |GapsFor(gaps, a)| > 0 {
          var g :| g in gaps && g.activity == a;
          var i :| 0 <= i < |gaps| && gaps[i] == g;
          assert all[i] == a;
        }
        if a in acts {
          var i :| 0 <= i < |all| && all[i] == a;
          assert gaps[i] in gaps;
        }
      }
    }
    acts
  }

  /** The typical durations and the default for activities without gaps. */
  datatype Durations = Durations(typical: map<string, real>, default: real)

  function Max2(a: real, b: real): real {
    if a >= b then a else b
  }

  /** `activity_durations`: `max(1, p)` with `p` the 25th percentile of an
      activity's gaps; every other activity of the log gets the mean of
      those, or `FallbackDuration` when no gap was recorded at all. */
  function TypicalDurations(log: seq<Event>, percentile: seq<real> -> real): (d: Durations)
    ensures d.typical.Keys == set i | 0 <= i < |log| :: log[i].activity
    ensures d.default >= 1.0
    ensures forall a :: a in d.typical ==> d.typical[a] >= 1.0
    ensures forall a :: a in d.typical && |GapsFor(AllGaps(log), a)| > 0 ==>
              d.typical[a] == Max2(1.0, percentile(GapsFor(AllGaps(log), a)))
    ensures forall a :: a in d.typical && |GapsFor(AllGaps(log), a)| == 0 ==> d.typical[a] == d.default
    ensures |AllGaps(log)| == 0 ==> d.default == FallbackDuration
    ensures |AllGaps(log)| > 0 ==>
              d.default == Mean(OwnDurations(AllGaps(log), GapActivities(AllGaps(log)), percentile))
  {
    var gaps := AllGaps(log);
    var gapActs := GapActivities(gaps);
    var own := OwnDurations(gaps, gapActs, percentile);
    var default := DefaultDuration(own);
    var acts := set i | 0 <= i < |log| :: log[i].activity;
    var typical := DurationTable(acts, gapActs, own, default);
    TableUsesPercentile(gaps, acts, percentile, default);
    Durations(typical, default)
  }

  /** An activity with gaps gets the percentile of its own gaps. */
  lemma {:induction false} TableUsesPercentile(gaps: seq<Gap>, acts: set<string>, percentile: seq<real> -> real, default: real)
    requires default >= 1.0
    ensures var gapActs := GapActivities(gaps);
            var t := DurationTable(acts, gapActs, OwnDurations(gaps, gapActs, percentile), default);
            forall a :: a in t && |GapsFor(gaps, a)| > 0 ==> t[a] == Max2(1.0, percentile(GapsFor(gaps, a)))
  {
    var gapActs := GapActivities(gaps);
    var own := OwnDurations(gaps, gapActs, percentile);
    var t := DurationTable(acts, gapActs, own, default);
    forall a | a in t && |GapsFor(gaps, a)| > 0
      ensures t[a] == Max2(1.0, percentile(GapsFor(gaps, a)))
    {
      assert a in gapActs;
      var j := IndexOf(gapActs, a);
      assert own[j] == Max2(1.0, percentile(GapsFor(gaps, gapActs[j])));
    }
  }

  /** `max(1, p)` for each listed activity, `p` the percentile of its gaps. */
  function OwnDurations(gaps: seq<Gap>, acts: seq<string>, percentile: seq<real> -> real): (own: seq<real>)
    ensures |own| == |acts|
    ensures forall j :: 0 <= j < |acts| ==> own[j] == Max2(1.0, percentile(GapsFor(gaps, acts[j]))) && own[j] >= 1.0
  {
    seq(|acts|, j requires 0 <= j < |acts| => Max2(1.0, percentile(GapsFor(gaps, acts[j]))))
  }

  /** Each activity's own duration when some gap follows it, else the default. */
  function DurationTable(acts: set<string>, gapActs: seq<string>, own: seq<real>, default: real): (t: map<string, real>)
    requires |own| == |gapActs|
    requires default >= 1.0 && forall j :: 0 <= j < |own| ==> own[j] >= 1.0
    ensures t.Keys == acts
    ensures forall a :: a in t ==> t[a] >= 1.0
    ensures forall a :: a in t && a in gapActs ==> t[a] == own[IndexOf(gapActs, a)]
    ensures forall a :: a in t && a !in gapActs ==> t[a] == default
  {
    map a | a in acts :: if a in gapActs then own[IndexOf(gapActs, a)] else default
  }

  /** The mean of the activities' own durations, or `FallbackDuration` when
      there are none. */
  function DefaultDuration(own: seq<real>): (r: real)
    requires forall j :: 0 <= j < |own| ==> own[j] >= 1.0
    ensures r >= 1.0
    ensures |own| == 0 ==> r == FallbackDuration
    ensures |own| > 0 ==> r == Mean(own)
  {
    if |own| == 0 then FallbackDuration
    else
      MeanBounds(own, 1.0, Max(own));
      Mean(own)
  }

  // ---------------------------------------------------------------------
  // Per-row duration rules

  /** `first_activities`: the activity of the first event of each case. */
  function FirstActivities(log: seq<Event>): (first: map<string, string>)
    ensures first.Keys == set i | 0 <= i < |log| :: log[i].caseId
    ensures forall c :: c in first ==> |CaseEvents(log, c)| > 0 && first[c] == CaseEvents(log, c)[0].activity
  {
    map c | c in (set i | 0 <= i < |log| :: log[i].caseId) :: CaseEvents(log, c)[0].activity
  }

  /** Over the completion-sorted log the first event of a case is one of
      its earliest: no row of the case completes before it. */
  lemma {:induction false} FirstEventEarliest(log: seq<Event>, c: string)
    requires forall i, j :: 0 <= i < j < |log| ==> log[i].completion <= log[j].completion
    requires c in FirstActivities(log)
    ensures forall i :: 0 <= i < |log| && log[i].caseId == c ==>
              CaseEvents(log, c)[0].completion <= log[i].completion
  {
    var evs := CaseEvents(log, c);
    CaseEventsExact(log, c);
    CaseEventsSorted(log, c);
    forall i | 0 <= i < |log| && log[i].caseId == c ensures evs[0].completion <= log[i].completion {
      var m := Occurrences(CaseIds(log), c, i);
      assert evs[m] == log[i];
      if m > 0 {
        assert evs[0].completion <= evs[m].completion;
      }
    }
  }

  /** The row has activity `FirstActivity` and its case's first event has
      that activity too. Every such row of the case qualifies, not only the
      first one. */
  predicate OpensWithFirstActivity(first: map<string, string>, e: Event) {
    e.activity == FirstActivity && e.caseId in first && first[e.caseId] == e.activity
  }

  /** `concurrency1.get(resource, 1)`, capped at `MaxFactor`. */
  function MultitaskFactor(conc: map<string, real>, resource: string): (f: real)
    ensures f <= MaxFactor
    ensures resource !in conc ==> f == 1.0
    ensures resource in conc && conc[resource] <= MaxFactor ==> f == conc[resource]
    ensures resource in conc && conc[resource] > MaxFactor ==> f == MaxFactor
    ensures (resource in conc ==> conc[resource] >= 1.0) ==> f >= 1.0
  {
    if resource !in conc then 1.0
    else if conc[resource] > MaxFactor then MaxFactor
    else conc[resource]
  }

  /** `max(0.1, 0.70 / factor)`: the share of the elapsed time taken as
      work; a factor of 1 or more keeps it in [0.1, 0.7]. */
  function AdjustmentShare(factor: real): (s: real)
    requires factor != 0.0
    ensures s >= MinShare
    ensures factor >= 1.0 ==> s <= WorkShare
    ensures factor > 0.0 && factor <= WorkShare / MinShare ==> s == WorkShare / factor
    ensures factor >= WorkShare / MinShare || factor < 0.0 ==> s == MinShare
  {
    Max2(MinShare, WorkShare / factor)
  }

  /** The elapsed time before the row: since the case's previous completion,
      else since the resource's previous completion, else the activity's
      typical duration (the default for an activity without one). */
  function RawDuration(e: Event, prevCase: Option<real>, prevResource: Option<real>, d: Durations): (r: real)
    ensures prevCase.Some? ==> prevCase.value + r == e.completion
    ensures prevCase.None? && prevResource.Some? ==> prevResource.value + r == e.completion
    ensures prevCase.None? && prevResource.None? && e.activity in d.typical ==> r == d.typical[e.activity]
    ensures prevCase.None? && prevResource.None? && e.activity !in d.typical ==> r == d.default
  {
    if prevCase.Some? then e.completion - prevCase.value
    else if prevResource.Some? then e.completion - prevResource.value
    else if e.activity in d.typical then d.typical[e.activity]
    else d.default
  }

  /** The clamp of the adjusted duration: a non-positive one becomes 1; one
      above `MaxDuration` becomes the activity's typical duration when that
      is shorter, else a uniform draw in [30, 360]. */
  function ClampDuration(adjusted: real, activity: string, d: Durations, u: UnitDraw): (r: real)
    ensures r <= MaxDuration
    ensures (activity in d.typical ==> d.typical[activity] > 0.0) ==> r > 0.0
    ensures adjusted <= 0.0 ==> r == 1.0
    ensures 0.0 < adjusted <= MaxDuration ==> r == adjusted
    ensures adjusted > MaxDuration && activity in d.typical && d.typical[activity] < MaxDuration ==>
              r == d.typical[activity]
    ensures adjusted > MaxDuration && !(activity in d.typical && d.typical[activity] < MaxDuration) ==>
              RedrawMin <= r
  {
    if adjusted <= 0.0 then 1.0
    else if adjusted > MaxDuration then
      if activity in d.typical && d.typical[activity] < MaxDuration then d.typical[activity]
      else UniformSample(Uniform(RedrawMin, MaxDuration), u)
    else adjusted
  }

  /** What the row rules read besides the row and the last completions:
      `first_activities`, the concurrency per resource and the durations. */
  datatype Context = Context(first: map<string, string>, conc: map<string, real>, durations: Durations)

  predicate ValidContext(ctx: Context) {
    && (forall res :: res in ctx.conc ==> ctx.conc[res] >= 1.0)
    && (forall a :: a in ctx.durations.typical ==> ctx.durations.typical[a] >= 1.0)
  }

  /** The context computed from the sorted log before the row loop. */
  function Prepare(sorted: seq<Event>, percentile: seq<real> -> real): (ctx: Context)
    ensures ValidContext(ctx)
  {
    Context(FirstActivities(sorted), AnalyzeMultitasking(sorted), TypicalDurations(sorted, percentile))
  }

  /** The duration the row's start is placed before its completion. */
  function RowDuration(e: Event, prevCase: Option<real>, prevResource: Option<real>, ctx: Context, u: UnitDraw): (r: real)
    requires ValidContext(ctx)
    ensures 0.0 < r <= MaxDuration
    ensures OpensWithFirstActivity(ctx.first, e) ==> 1.0 <= r <= 60.0
  {
    if OpensWithFirstActivity(ctx.first, e) then UniformSample(Uniform(1.0, 60.0), u)
    else
      var share := AdjustmentShare(MultitaskFactor(ctx.conc, e.resource));
      ClampDuration(RawDuration(e, prevCase, prevResource, ctx.durations) * share, e.activity, ctx.durations, u)
  }

  // ---------------------------------------------------------------------
  // The row loop

  /** The completion of the last of the first `n` rows whose case (or, with
      `byResource`, whose resource) is `k`. */
  function LastCompletion(rows: seq<Event>, n: nat, byResource: bool, k: string): (r: Option<real>)
    requires n <= |rows|
    ensures r.None? <==> forall j :: 0 <= j < n ==> Key(rows[j], byResource) != k
  {
    if n == 0 then None
    else if Key(rows[n - 1], byResource) == k then Some(rows[n - 1].completion)
    else LastCompletion(rows, n - 1, byResource, k)
  }

  /** Row `j` is the last of the first `n` rows whose key is `k`. */
  predicate LatestWithKey(rows: seq<Event>, n: nat, byResource: bool, k: string, j: nat)
    requires n <= |rows|
  {
    j < n && Key(rows[j], byResource) == k && forall l :: j < l < n ==> Key(rows[l], byResource) != k
  }

  /** Index of the latest of the first `n` rows whose key is `k`. */
  function LatestIndex(rows: seq<Event>, n: nat, byResource: bool, k: string): nat
    requires n <= |rows| && LastCompletion(rows, n, byResource, k).Some?
  {
    if Key(rows[n - 1], byResource) == k then n - 1 else LatestIndex(rows, n - 1, byResource, k)
  }

  /** A tracked completion is the completion of the latest earlier row
      with the key. */
  lemma {:induction false} LastCompletionIsLatest(rows: seq<Event>, n: nat, byResource: bool, k: string)
    requires n <= |rows|
    ensures LastCompletion(rows, n, byResource, k).Some? ==>
              LatestWithKey(rows, n, byResource, k, LatestIndex(rows, n, byResource, k)) &&
              LastCompletion(rows, n, byResource, k).value == rows[LatestIndex(rows, n, byResource, k)].completion
  {
    if n > 0 && Key(rows[n - 1], byResource) != k {
      LastCompletionIsLatest(rows, n - 1, byResource, k);
      if LastCompletion(rows, n, byResource, k).Some? {
        LatestStaysLatest(rows, n, byResource, k, LatestIndex(rows, n - 1, byResource, k));
      }
    }
  }

  /** A row without the key does not displace the latest one with it. */
  lemma {:induction false} LatestStaysLatest(rows: seq<Event>, n: nat, byResource: bool, k: string, j: nat)
    requires 0 < n <= |rows| && Key(rows[n - 1], byResource) != k
    requires LatestWithKey(rows, n - 1, byResource, k, j)
    ensures LatestWithKey(rows, n, byResource, k, j)
  {
  }

  function Key(e: Event, byResource: bool): string {
    if byResource then e.resource else e.caseId
  }

  function Lookup(m: map<string, real>, k: string): Option<real> {
    if k in m then Some(m[k]) else None
  }

  /** The map after recording the row's completion under its key. */
  function Record(m: map<string, real>, e: Event, byResource: bool): map<string, real> {
    m[Key(e, byResource) := e.completion]
  }

  /** Recording row `n` under its key extends a map that tracks the last
      completion per key over the first `n` rows to one over the first `n + 1`. */
  lemma {:induction false} RecordRow(m: map<string, real>, rows: seq<Event>, n: nat, byResource: bool)
    requires n < |rows|
    requires forall k :: Lookup(m, k) == LastCompletion(rows, n, byResource, k)
    ensures forall k :: Lookup(Record(m, rows[n], byResource), k) == LastCompletion(rows, n + 1, byResource, k)
  {
  }

  /** The start of row `i` of the sorted log: its completion less the
      duration the rules give it, given the latest earlier completion of its
      case and of its resource. */
  function RowStart(sorted: seq<Event>, i: nat, ctx: Context, draws: nat -> UnitDraw): real
    requires i < |sorted| && ValidContext(ctx)
  {
    var e := sorted[i];
    e.completion - RowDuration(e, LastCompletion(sorted, i, false, e.caseId),
                               LastCompletion(sorted, i, true, e.resource), ctx, draws(i))
  }

  /** The row loop of `estimate_start_times_multitasking`: one pass that
      keeps the last completion per case and per resource in two maps.
      Each start lies strictly before its completion and at most
      `MaxDuration` minutes before it. */
  method EstimateRows(sorted: seq<Event>, ctx: Context, draws: nat -> UnitDraw) returns (starts: seq<real>)
    requires ValidContext(ctx)
    ensures |starts| == |sorted|
    ensures forall i :: 0 <= i < |sorted| ==> starts[i] == RowStart(sorted, i, ctx, draws)
    ensures forall i :: 0 <= i < |sorted| ==>
              sorted[i].completion - MaxDuration <= starts[i] < sorted[i].completion
    ensures forall i :: 0 <= i < |sorted| && OpensWithFirstActivity(ctx.first, sorted[i]) ==>
              sorted[i].completion - 60.0 <= starts[i] <= sorted[i].completion - 1.0
  {
    var lastCase: map<string, real> := map[];
    var lastResource: map<string, real> := map[];
    starts := [];
    var i := 0;
    while i < |sorted|
      invariant 0 <= i <= |sorted| && |starts| == i
      invariant forall k :: Lookup(lastCase, k) == LastCompletion(sorted, i, false, k)
      invariant forall k :: Lookup(lastResource, k) == LastCompletion(sorted, i, true, k)
      invariant forall j :: 0 <= j < i ==> starts[j] == RowStart(sorted, j, ctx, draws)
    {
      var e := sorted[i];
      var duration := RowDuration(e, Lookup(lastCase, e.caseId), Lookup(lastResource, e.resource), ctx, draws(i));
      assert Lookup(lastCase, e.caseId) == LastCompletion(sorted, i, false, e.caseId);
      assert Lookup(lastResource, e.resource) == LastCompletion(sorted, i, true, e.resource);
      starts := starts + [e.completion - duration];
      RecordRow(lastCase, sorted, i, false);
      RecordRow(lastResource, sorted, i, true);
      lastCase := Record(lastCase, e, false);
      lastResource := Record(lastResource, e, true);
      i := i + 1;
    }
  }

  /** `estimate_start_times_multitasking` after reading the log: the log
      sorted by completion and the estimated start of each of its rows.
      `draws(i)` is the uniform draw row `i` may use. */
  method EstimateStartTimes(log: seq<Event>, percentile: seq<real> -> real, draws: nat -> UnitDraw)
    returns (sorted: seq<Event>, starts: seq<real>)
    ensures multiset(sorted) == multiset(log)
    ensures forall i, j :: 0 <= i < j < |sorted| ==> sorted[i].completion <= sorted[j].completion
    ensures |starts| == |sorted|
    ensures forall i :: 0 <= i < |sorted| ==> starts[i] == RowStart(sorted, i, Prepare(sorted, percentile), draws)
    ensures forall i :: 0 <= i < |sorted| ==>
              sorted[i].completion - MaxDuration <= starts[i] < sorted[i].completion
  {
    sorted := SortByCompletion(log);
    starts := EstimateRows(sorted, Prepare(sorted, percentile), draws);
  }

  /** In the completion-sorted log the latest earlier completion of a key is
      never after the row's own completion. */
  lemma {:induction false} EarlierCompletionNotLater(sorted: seq<Event>, i: nat, byResource: bool, k: string)
    requires i < |sorted|
    requires forall a, b :: 0 <= a < b < |sorted| ==> sorted[a].completion <= sorted[b].completion
    ensures LastCompletion(sorted, i, byResource, k).Some? ==>
              LastCompletion(sorted, i, byResource, k).value <= sorted[i].completion
  {
    LastCompletionIsLatest(sorted, i, byResource, k);
  }

  /** In the completion-sorted log the elapsed time a row measures from its
      case's or resource's previous completion is never negative: the
      clamp's first branch is reached only through equal completion times. */
  lemma {:induction false} RawDurationNonNegative(sorted: seq<Event>, i: nat, d: Durations)
    requires i < |sorted|
    requires forall a, b :: 0 <= a < b < |sorted| ==> sorted[a].completion <= sorted[b].completion
    requires forall a :: a in d.typical ==> d.typical[a] >= 1.0
    requires d.default >= 1.0
    ensures RawDuration(sorted[i], LastCompletion(sorted, i, false, sorted[i].caseId),
                        LastCompletion(sorted, i, true, sorted[i].resource), d) >= 0.0
  {
    EarlierCompletionNotLater(sorted, i, false, sorted[i].caseId);
    EarlierCompletionNotLater(sorted, i, true, sorted[i].resource);
  }
}
