/** How `list_jobs` really orders jobs (src/platform/agent_controller.py:124,136):
    by the text `submitted_at.isoformat() + "Z"`, compared as strings.
    `isoformat()` omits the fractional part when the microseconds are zero, so
    a whole-second timestamp renders as "...SSZ" and any later instant of the
    same second as "...SS.ffffffZ"; since '.' sorts before 'Z', the later
    instant sorts as the older one. Module Controller sorts on the timestamp
    itself, which is what the method's documentation promises. */
module IsoTime {
  import opened Text
  import opened Sorting
  import opened Jobs
  import opened Controller

  /** Microseconds per second: the resolution of `datetime`. */
  const MicrosPerSecond := 1000000

  /** The rendering of a timestamp of `t` microseconds. The calendar fields
      "YYYY-MM-DDTHH:MM:SS" have a fixed width and order like the count of
      whole seconds, so the model renders that count zero-padded. */
  function IsoText(t: nat): string {
    var whole := Padded(t / MicrosPerSecond, 12);
    var fraction := t % MicrosPerSecond;
    whole + (if fraction == 0 then "" else "." + Padded(fraction, 6)) + "Z"
  }

  function IsoKey(s: JobStatus): string { IsoText(s.submittedAt) }

  /** `>=` on `str`. */
  function StrAtLeast(a: string, b: string): bool { !LexLess(a, b) }

  lemma StrAtLeastIsTotalPreorder()
    ensures TotalPreorder(StrAtLeast)
  {
    forall a: string, b: string ensures StrAtLeast(a, b) || StrAtLeast(b, a) {
      if LexLess(a, b) && LexLess(b, a) {
        LexLessTransitive(a, b, a);
        LexLessIrreflexive(a);
      }
    }
    forall a: string, b: string, c: string | StrAtLeast(a, b) && StrAtLeast(b, c)
      ensures StrAtLeast(a, c)
    {
      LexLessTrichotomy(a, b);
      if LexLess(b, a) && LexLess(a, c) {
        LexLessTransitive(b, a, c);
      }
    }
  }

  /** `list_jobs` as written: sorted on the rendered strings, largest first. */
  function ListJobsAsWritten(c: Controller): (r: seq<JobStatus>)
    ensures multiset(r) == multiset(Snapshot(c.jobs))
    ensures forall i, j :: 0 <= i < j < |r| ==> !LexLess(IsoKey(r[i]), IsoKey(r[j]))
    // `sorted` is stable: jobs with the same rendered text keep table order
    ensures forall k :: KeyClass(r, IsoKey, k) == KeyClass(Snapshot(c.jobs), IsoKey, k)
  {
    StrAtLeastIsTotalPreorder();
    SortDescSorted(Snapshot(c.jobs), IsoKey, StrAtLeast);
    StrAtLeastIsReflexive();
    forall k { SortDescStable(Snapshot(c.jobs), IsoKey, StrAtLeast, k); }
    SortDesc(Snapshot(c.jobs), IsoKey, StrAtLeast)
  }

  lemma StrAtLeastIsReflexive()
    ensures Reflexive(StrAtLeast)
  {
    forall a: string ensures StrAtLeast(a, a) {
      LexLessIrreflexive(a);
    }
  }

  /** Within one second, any later instant renders as a smaller string than
      the whole second itself. */
  lemma {:induction false} LaterInstantRendersSmaller(second: nat, micros: nat)
    requires 0 < micros < MicrosPerSecond
    ensures IsoText(second * MicrosPerSecond) == Padded(second, 12) + "Z"
    ensures IsoText(second * MicrosPerSecond + micros) == Padded(second, 12) + "." + Padded(micros, 6) + "Z"
    ensures LexLess(IsoText(second * MicrosPerSecond + micros), IsoText(second * MicrosPerSecond))
  {
    RenderWhole(second);
    RenderFraction(second, micros);
    FractionSortsFirst(Padded(second, 12), Padded(micros, 6));
  }

  /** After a common prefix, '.' sorts before 'Z'. */
  lemma FractionSortsFirst(whole: string, fraction: string)
    ensures LexLess(whole + "." + fraction + "Z", whole + "Z")
  {
    var tail := "." + fraction + "Z";
    assert whole + "." + fraction + "Z" == whole + tail;
    LexLessCommonPrefix(whole, tail, "Z");
    assert LexLess(tail, "Z");
  }

  /** A whole second renders with no fraction. */
  lemma RenderWhole(second: nat)
    ensures IsoText(second * MicrosPerSecond) == Padded(second, 12) + "Z"
  {
    SplitInstant(second, 0);
  }

  /** Any other instant renders its six-digit fraction after a '.'. */
  lemma RenderFraction(second: nat, micros: nat)
    requires 0 < micros < MicrosPerSecond
    ensures IsoText(second * MicrosPerSecond + micros) == Padded(second, 12) + "." + Padded(micros, 6) + "Z"
  {
    SplitInstant(second, micros);
  }

  /** An instant splits uniquely into whole seconds and the microseconds past them. */
  lemma SplitInstant(second: nat, micros: nat)
    requires micros < MicrosPerSecond
    ensures (second * MicrosPerSecond + micros) / MicrosPerSecond == second
    ensures (second * MicrosPerSecond + micros) % MicrosPerSecond == micros
  {
  }

  /** The as-written listing puts a job stamped on a whole second BEFORE a job
      submitted later in that same second, against "newest first". */
  lemma AsWrittenListsOlderFirst(c: Controller, older: JobId, newer: JobId, second: nat, micros: nat)
    requires Valid(c) && 0 < micros < MicrosPerSecond
    requires Find(c.jobs, older).Some? && Find(c.jobs, older).value.submittedAt == second * MicrosPerSecond
    requires Find(c.jobs, newer).Some? && Find(c.jobs, newer).value.submittedAt == second * MicrosPerSecond + micros
    ensures forall i, j ::
      (0 <= i < |ListJobsAsWritten(c)| && 0 <= j < |ListJobsAsWritten(c)| &&
       ListJobsAsWritten(c)[i].jobId == older && ListJobsAsWritten(c)[j].jobId == newer) ==> i < j
  {
    var r := ListJobsAsWritten(c);
    forall i, j | 0 <= i < |r| && 0 <= j < |r| && r[i].jobId == older && r[j].jobId == newer
      ensures i < j
    {
      SortedStatusTime(c, r, i, older);
      SortedStatusTime(c, r, j, newer);
      LaterStatusSmaller(r[j], r[i], second, micros);
      SmallerKeyAfter(r, i, j);
    }
  }

  /** In a list ordered by key text, largest first, a strictly smaller key comes later. */
  lemma SmallerKeyAfter(r: seq<JobStatus>, i: nat, j: nat)
    requires forall a, b :: 0 <= a < b < |r| ==> !LexLess(IsoKey(r[a]), IsoKey(r[b]))
    requires i < |r| && j < |r| && LexLess(IsoKey(r[j]), IsoKey(r[i]))
    ensures i < j
  {
    LexLessIrreflexive(IsoKey(r[i]));
  }

  lemma LaterStatusSmaller(later: JobStatus, whole: JobStatus, second: nat, micros: nat)
    requires 0 < micros < MicrosPerSecond
    requires whole.submittedAt == second * MicrosPerSecond
    requires later.submittedAt == second * MicrosPerSecond + micros
    ensures LexLess(IsoKey(later), IsoKey(whole))
  {
    LaterInstantRendersSmaller(second, micros);
  }

  /** Each listed status carries the submission time of its job. */
  lemma SortedStatusTime(c: Controller, r: seq<JobStatus>, k: nat, id: JobId)
    requires Valid(c) && multiset(r) == multiset(Snapshot(c.jobs))
    requires k < |r| && r[k].jobId == id && Find(c.jobs, id).Some?
    ensures r[k].submittedAt == Find(c.jobs, id).value.submittedAt
  {
    var snap := Snapshot(c.jobs);
    assert r[k] in multiset(r);
    assert r[k] in snap;
    var a :| 0 <= a < |snap| && snap[a] == r[k];
    FindUnique(c.jobs, a);
  }

  /** A concrete case: second 5 exactly renders without a fraction, half a
      second later renders with a fraction, and that later text is the smaller
      one, so the job submitted later is listed after the other. */
  lemma HalfSecondApart()
    ensures IsoText(5 * MicrosPerSecond) == Padded(5, 12) + "Z"
    ensures IsoText(5 * MicrosPerSecond + 500000) == Padded(5, 12) + "." + Padded(500000, 6) + "Z"
    ensures LexLess(IsoText(5 * MicrosPerSecond + 500000), IsoText(5 * MicrosPerSecond))
  {
    LaterInstantRendersSmaller(5, 500000);
  }

}
