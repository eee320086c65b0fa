/**
 * One run of the job bot: load the seen ledger, go through the fetched jobs,
 * notify (and record) each unseen job whose description names one of the
 * keywords, then append the recorded ids to the ledger. Fetching jobs is an
 * input and each notification is an entry in the returned `sent` log.
 */
module JobBot {
  import opened Wrappers
  import opened Text
  import opened Ledger

  /** The fields of a fetched job that the loop reads; title is kept to show it plays no part. */
  datatype Job = Job(id: string, title: string, description: string)

  /** The loop's test for one job, against the seen set loaded at the start. */
  predicate Admits(seen: set<string>, job: Job)
    ensures Admits(seen, job) <==>
      job.id !in seen && exists k, i :: k in Keywords && OccursAt(Lower(job.description), k, i)
  {
    RelevantIffKeywordOccurs(job.description);
    job.id !in seen && IsRelevant(job.description)
  }

  /** The jobs the loop notifies, in fetch order (defined from the last job back, as the loop grows). */
  function Notified(jobs: seq<Job>, seen: set<string>): (sent: seq<Job>)
    ensures |sent| <= |jobs|
    ensures forall k :: 0 <= k < |sent| ==> Admits(seen, sent[k])
  {
    if |jobs| == 0 then []
    else
      var last := jobs[|jobs| - 1];
      Notified(jobs[..|jobs| - 1], seen) + (if Admits(seen, last) then [last] else [])
  }

  function Ids(jobs: seq<Job>): seq<string> {
    seq(|jobs|, k requires 0 <= k < |jobs| => jobs[k].id)
  }

  /**
   * The loop over the fetched jobs: `sent` logs each call of the notifier and
   * `newIds` is the list of ids appended alongside, one per notification.
   */
  method ProcessJobs(jobs: seq<Job>, seen: set<string>) returns (sent: seq<Job>, newIds: seq<string>)
    ensures sent == Notified(jobs, seen)
    ensures |newIds| == |sent| && forall k :: 0 <= k < |sent| ==> newIds[k] == sent[k].id
  {
    sent, newIds := [], [];
    for i := 0 to |jobs|
      invariant sent == Notified(jobs[..i], seen)
      invariant newIds == Ids(sent)
    {
      var job := jobs[i];
      assert jobs[..i + 1][..i] == jobs[..i];
      if job.id !in seen {
        var desc := Lower(job.description);
        if AnyOccurs(desc, Keywords) {
          sent := sent + [job];
          newIds := newIds + [job.id];
        }
      }
    }
    assert jobs[..|jobs|] == jobs;
  }

  /**
   * A whole run: `ledger` is the ledger file's text (None when it does not
   * exist); `text` is its text afterwards.
   */
  method Run(jobs: seq<Job>, ledger: Option<string>) returns (sent: seq<Job>, text: string)
    ensures sent == Notified(jobs, LoadSeen(ledger))
    ensures text == Existing(ledger) + Render(Ids(sent))
  {
    var seen := LoadSeen(ledger);
    var newIds;
    sent, newIds := ProcessJobs(jobs, seen);
    assert newIds == Ids(sent);
    text := Flush(ledger, newIds);
  }

  /** Notified distributes over concatenation: the filter keeps fetch order. */
  lemma {:induction false} NotifiedAppend(a: seq<Job>, b: seq<Job>, seen: set<string>)
    ensures Notified(a + b, seen) == Notified(a, seen) + Notified(b, seen)
    decreases |b|
  {
    if |b| == 0 {
      assert a + b == a;
    } else {
      var init := b[..|b| - 1];
      assert (a + b)[..|a + b| - 1] == a + init;
      NotifiedAppend(a, init, seen);
    }
  }

  /** A job is notified exactly when it was fetched, its id is unseen and its description matches. */
  lemma {:induction false} NotifiedMember(jobs: seq<Job>, seen: set<string>, job: Job)
    ensures job in Notified(jobs, seen) <==> job in jobs && Admits(seen, job)
    decreases |jobs|
  {
    if |jobs| > 0 {
      var init := jobs[..|jobs| - 1];
      assert jobs == init + [jobs[|jobs| - 1]];
      NotifiedMember(init, seen, job);
    }
  }

  /**
   * The seen set is fixed for the whole loop, so an admitted job is notified
   * as many times as it was fetched (twice if the fetch lists it twice).
   */
  lemma {:induction false} NotifiedCount(jobs: seq<Job>, seen: set<string>, job: Job)
    ensures multiset(Notified(jobs, seen))[job] == if Admits(seen, job) then multiset(jobs)[job] else 0
    decreases |jobs|
  {
    if |jobs| > 0 {
      var init := jobs[..|jobs| - 1];
      assert jobs == init + [jobs[|jobs| - 1]];
      NotifiedCount(init, seen, job);
    }
  }

  /** An unseen, matching job listed twice in one fetch is notified twice. */
  lemma DuplicateNotifiedTwice(seen: set<string>, job: Job)
    requires Admits(seen, job)
    ensures Notified([job, job], seen) == [job, job]
  {
    assert [job][..0] == [];
    assert Notified([job], seen) == [job];
    assert [job, job][..1] == [job];
  }

  /** No notified job has an id from the loaded ledger. */
  lemma SeenNeverNotified(jobs: seq<Job>, seen: set<string>)
    ensures forall job :: job in Notified(jobs, seen) ==> job.id !in seen
  {
    forall job | job in Notified(jobs, seen) ensures job.id !in seen {
      NotifiedMember(jobs, seen, job);
    }
  }

  /**
   * The matching looks at the description only: fetches that differ only in
   * the jobs' titles lead to the same notifications, up to those titles.
   */
  lemma {:induction false} TitleIsIgnored(a: seq<Job>, b: seq<Job>, seen: set<string>)
    requires |a| == |b|
    requires forall k :: 0 <= k < |a| ==> a[k].id == b[k].id && a[k].description == b[k].description
    ensures Ids(Notified(a, seen)) == Ids(Notified(b, seen))
    ensures |Notified(a, seen)| == |Notified(b, seen)|
    decreases |a|
  {
    if |a| > 0 {
      var n := |a| - 1;
      TitleIsIgnored(a[..n], b[..n], seen);
      var x, y := Notified(a[..n], seen), Notified(b[..n], seen);
      assert Admits(seen, a[n]) == Admits(seen, b[n]);
      if Admits(seen, a[n]) {
        assert Ids(x + [a[n]]) == Ids(x) + [a[n].id];
        assert Ids(y + [b[n]]) == Ids(y) + [b[n].id];
      } else {
        assert x + [] == x && y + [] == y;
      }
    }
  }

  /**
   * Running again over the same jobs against the ledger the first run left
   * behind notifies nothing, provided the ledger was empty, absent or ended
   * in a line break, and no job id holds a line break.
   */
  lemma RerunNotifiesNothing(jobs: seq<Job>, ledger: Option<string>)
    requires Terminated(Existing(ledger))
    requires forall job :: job in jobs ==> NL !in job.id
    ensures Notified(jobs, LoadSeen(Some(Existing(ledger) + Render(Ids(Notified(jobs, LoadSeen(ledger))))))) == []
  {
    var seen := LoadSeen(ledger);
    var first := Notified(jobs, seen);
    var ids := Ids(first);
    forall k | 0 <= k < |ids| ensures NL !in ids[k] {
      NotifiedMember(jobs, seen, first[k]);
    }
    ReloadAfterFlush(ledger, ids);
    var seen' := LoadSeen(Some(Existing(ledger) + Render(ids)));
    assert seen' == seen + set id | id in ids;
    forall job | job in jobs ensures !Admits(seen', job) {
      if Admits(seen, job) {
        NotifiedMember(jobs, seen, job);
        var k :| 0 <= k < |first| && first[k] == job;
        assert ids[k] == job.id;
        assert job.id in ids;
      }
    }
    NothingAdmitted(jobs, seen');
  }

  lemma NothingAdmitted(jobs: seq<Job>, seen: set<string>)
    requires forall job :: job in jobs ==> !Admits(seen, job)
    ensures Notified(jobs, seen) == []
  {
    if Notified(jobs, seen) != [] {
      NotifiedMember(jobs, seen, Notified(jobs, seen)[0]);
    }
  }

  /** A run's ledger keeps being empty-or-terminated, so the round trip holds run after run. */
  lemma RunKeepsTerminated(jobs: seq<Job>, ledger: Option<string>)
    requires Terminated(Existing(ledger))
    ensures Terminated(Existing(ledger) + Render(Ids(Notified(jobs, LoadSeen(ledger)))))
  {
    AppendKeepsTerminated(Existing(ledger), Ids(Notified(jobs, LoadSeen(ledger))));
  }
}
