/**
The release gate: poll the CI of a tag until the newest run for the exact tag and commit, and
the newest aggregate check of that run, are both finished, and pass only when both succeeded.
*/
module ReleaseGate {
  import opened Wrappers
  import opened Text
  import opened Decimals

  const REQUIRED_CHECK := "check (all jobs passed)"
  const MARKER := "/actions/runs/"

  /** The "id" of a JSON object: int() of a missing one is a KeyError only where it is indexed. */
  datatype Id = Absent | Num(n: int) | Malformed

  /** What is read of a chosen run or check; a null status is "", a null conclusion "none". */
  datatype Item = Item(id: Id, status: string, conclusion: string)

  datatype Run = Run(branch: Option<string>, sha: string, item: Item)

  datatype Check = Check(name: Option<string>, slug: Option<string>, url: string, item: Item)

  datatype Answer<T> = Failed | Doc(value: T)

  /** One turn of the loop: the clock at its head and what the API would answer during it. */
  datatype Poll = Poll(now: real, runs: Answer<seq<Run>>, checks: Answer<seq<Check>>)

  // ----- choosing the newest candidate

  datatype Entry = Entry(matches: bool, item: Item)

  datatype Pick = Nothing | Chosen(item: Item) | Crash

  function Key(id: Id): int
    requires !id.Malformed?
  {
    if id.Num? then id.n else 0
  }

  /** Python's max over the candidates: the first of the greatest keys. */
  function Newest(es: seq<Entry>): Pick {
    if es == [] then Nothing
    else
      var best, e := Newest(es[..|es| - 1]), es[|es| - 1];
      if !e.matches || best.Crash? then best
      else if e.item.id.Malformed? then Crash
      else if best.Chosen? && !best.item.id.Malformed? && Key(e.item.id) <= Key(best.item.id) then best
      else Chosen(e.item)
  }

  /** Entry k is a candidate, no candidate has a greater key and no earlier one an equal key. */
  ghost predicate NewestAt(es: seq<Entry>, k: nat) {
    && k < |es| && es[k].matches && !es[k].item.id.Malformed?
    && (forall j {:trigger es[j]} | 0 <= j < |es| && es[j].matches ::
          && !es[j].item.id.Malformed?
          && (if j < k then Key(es[j].item.id) < Key(es[k].item.id) else Key(es[j].item.id) <= Key(es[k].item.id)))
  }

  ghost predicate AnyMatch(es: seq<Entry>) {
    exists j {:trigger es[j]} | 0 <= j < |es| :: es[j].matches
  }

  ghost predicate AnyBad(es: seq<Entry>) {
    exists j {:trigger es[j]} | 0 <= j < |es| :: es[j].matches && es[j].item.id.Malformed?
  }

  lemma {:induction false} NewestMeaning(es: seq<Entry>)
    ensures Newest(es).Nothing? <==> !AnyMatch(es)
    ensures Newest(es).Crash? <==> AnyBad(es)
    ensures Newest(es).Chosen? ==> exists k | 0 <= k < |es| :: NewestAt(es, k) && es[k].item == Newest(es).item
  {
    if es != [] {
      var n := |es| - 1;
      var init := es[..n];
      NewestMeaning(init);
      assert forall j | 0 <= j < n :: init[j] == es[j];
      assert AnyMatch(es) <==> AnyMatch(init) || es[n].matches;
      assert AnyBad(es) <==> AnyBad(init) || (es[n].matches && es[n].item.id.Malformed?);
      if Newest(es).Chosen? {
        NewestNext(es, n);
      }
    }
  }

  lemma BestStays(es: seq<Entry>, n: nat, k: nat)
    requires |es| == n + 1 && NewestAt(es[..n], k)
    requires es[n].matches ==> !es[n].item.id.Malformed? && Key(es[n].item.id) <= Key(es[..n][k].item.id)
    ensures NewestAt(es, k) && es[k] == es[..n][k]
  {
    assert forall j | 0 <= j < n :: es[..n][j] == es[j];
  }

  lemma BestReplaced(es: seq<Entry>, n: nat)
    requires |es| == n + 1 && es[n].matches && !es[n].item.id.Malformed?
    requires !AnyMatch(es[..n])
             || exists k: nat :: NewestAt(es[..n], k) && Key(es[n].item.id) > Key(es[..n][k].item.id)
    ensures NewestAt(es, n)
  {
    assert forall j | 0 <= j < n :: es[..n][j] == es[j];
  }

  lemma NewestNext(es: seq<Entry>, n: nat)
    requires |es| == n + 1 && Newest(es).Chosen?
    requires Newest(es[..n]).Nothing? ==> !AnyMatch(es[..n])
    requires Newest(es[..n]).Chosen? ==>
               exists k | 0 <= k < n :: NewestAt(es[..n], k) && es[..n][k].item == Newest(es[..n]).item
    ensures exists k | 0 <= k < |es| :: NewestAt(es, k) && es[k].item == Newest(es).item
  {
    var init, e := es[..n], es[n];
    if Newest(init).Chosen? {
      var k :| 0 <= k < n && NewestAt(init, k) && init[k].item == Newest(init).item;
      if e.matches && Key(e.item.id) > Key(init[k].item.id) {
        BestReplaced(es, n);
      } else {
        BestStays(es, n, k);
      }
    } else {
      BestReplaced(es, n);
    }
  }

  /** NewestAt names the choice, and only the choice. */
  lemma NewestExactly(es: seq<Entry>, k: nat)
    requires NewestAt(es, k)
    ensures Newest(es) == Chosen(es[k].item)
  {
    NewestMeaning(es);
    assert es[k].matches;
    assert !AnyBad(es);
    var j :| 0 <= j < |es| && NewestAt(es, j) && es[j].item == Newest(es).item;
    assert j == k;
  }

  /** A candidate without an id ranks as id 0. */
  lemma AbsentRanksAsZero(a: Entry, b: Entry, n: int)
    requires a.matches && b.matches && a.item.id == Absent && b.item.id == Num(n)
    ensures Newest([a, b]) == if n > 0 then Chosen(b.item) else Chosen(a.item)
  {
    if n > 0 {
      assert NewestAt([a, b], 1);
      NewestExactly([a, b], 1);
    } else {
      assert NewestAt([a, b], 0);
      NewestExactly([a, b], 0);
    }
  }

  predicate DistinctIds(es: seq<Entry>) {
    forall i, j | 0 <= i < j < |es| && es[i].matches && es[j].matches :: es[i].item.id != es[j].item.id
  }

  lemma SameElements(es: seq<Entry>, fs: seq<Entry>, i: nat) returns (j: nat)
    requires multiset(es) == multiset(fs) && i < |es|
    ensures j < |fs| && fs[j] == es[i]
  {
    assert es[i] in multiset(es);
    j :| 0 <= j < |fs| && fs[j] == es[i];
  }

  /** With numeric, distinct ids the order in which the API lists the candidates is immaterial. */
  lemma ListingOrderIrrelevant(es: seq<Entry>, fs: seq<Entry>)
    requires multiset(es) == multiset(fs) && DistinctIds(fs)
    requires forall i | 0 <= i < |es| && es[i].matches :: es[i].item.id.Num?
    ensures Newest(es) == Newest(fs)
  {
    NewestMeaning(es);
    NewestMeaning(fs);
    if Newest(es).Chosen? {
      var k :| 0 <= k < |es| && NewestAt(es, k) && es[k].item == Newest(es).item;
      var m := SameElements(es, fs, k);
      forall j | 0 <= j < |fs| && fs[j].matches
        ensures !fs[j].item.id.Malformed? && Key(fs[j].item.id) <= Key(fs[m].item.id)
        ensures j < m ==> Key(fs[j].item.id) < Key(fs[m].item.id)
      {
        var i := SameElements(fs, es, j);
        assert es[i].matches;
      }
      assert NewestAt(fs, m);
      NewestExactly(fs, m);
    } else {
      forall j | 0 <= j < |fs| ensures !fs[j].matches {
        var i := SameElements(fs, es, j);
        assert es[i] == fs[j];
      }
    }
  }

  // ----- the two selectors

  predicate IsCandidateRun(r: Run, ref: string, sha: string) {
    r.branch == Some(ref) && Lower(r.sha) == Lower(sha)
  }

  function RunEntries(runs: seq<Run>, ref: string, sha: string): seq<Entry> {
    seq(|runs|, i requires 0 <= i < |runs| => Entry(IsCandidateRun(runs[i], ref, sha), runs[i].item))
  }

  function SelectCiRun(runs: seq<Run>, ref: string, sha: string): Pick {
    Newest(RunEntries(runs, ref, sha))
  }

  function Fragment(runId: int): string {
    MARKER + Render(runId) + "/"
  }

  predicate IsCandidateCheck(c: Check, runId: int) {
    c.name == Some(REQUIRED_CHECK) && c.slug == Some("github-actions") && Contains(c.url, Fragment(runId))
  }

  function CheckEntries(checks: seq<Check>, runId: int): seq<Entry> {
    seq(|checks|, i requires 0 <= i < |checks| => Entry(IsCandidateCheck(checks[i], runId), checks[i].item))
  }

  function SelectAggregateCheck(checks: seq<Check>, runId: int): Pick {
    Newest(CheckEntries(checks, runId))
  }

  lemma FragmentAt(url: string, i: nat, runId: int)
    requires i <= |url| && HasPrefix(url[i..], Fragment(runId))
    ensures i + |MARKER| <= |url| && HasPrefix(url[i..], MARKER)
    ensures exists rest: string :: url[i + |MARKER|..] == Render(runId) + ("/" + rest)
  {
    var u := url[i..];
    var f := Fragment(runId);
    var rest := u[|f|..];
    assert u == f + rest;
    assert u == MARKER + (Render(runId) + ("/" + rest));
    assert url[i + |MARKER|..] == u[|MARKER|..] == Render(runId) + ("/" + rest);
  }

  /** A details URL belongs to two different runs only if it names two runs, at two places. */
  lemma UrlNamesOneRun(url: string, i: nat, a: int, j: nat, b: int)
    requires i <= |url| && HasPrefix(url[i..], Fragment(a))
    requires j <= |url| && HasPrefix(url[j..], Fragment(b))
    ensures a != b ==> i != j && HasPrefix(url[i..], MARKER) && HasPrefix(url[j..], MARKER)
  {
    FragmentAt(url, i, a);
    FragmentAt(url, j, b);
    if i == j {
      var ra: string :| url[i + |MARKER|..] == Render(a) + ("/" + ra);
      var rb: string :| url[i + |MARKER|..] == Render(b) + ("/" + rb);
      RenderPrefixFree(a, b, "/" + ra, "/" + rb);
    }
  }

  // ----- one turn of the loop

  datatype Verdict = Wait | Pass | Refuse | Abort

  function JudgeItem(item: Item): Verdict {
    if item.id.Absent? then Abort
    else if item.status != "completed" then Wait
    else if item.conclusion != "success" then Refuse
    else Pass
  }

  function JudgePick(p: Pick): Verdict {
    match p
    case Nothing => Wait
    case Crash => Abort
    case Chosen(item) => JudgeItem(item)
  }

  /** The body of the loop; Refuse is a GateError, Abort any other exception. */
  function Judge(p: Poll, ref: string, sha: string): Verdict {
    if p.runs.Failed? then Refuse
    else
      var run := SelectCiRun(p.runs.value, ref, sha);
      if JudgePick(run) != Pass then JudgePick(run)
      else if p.checks.Failed? then Refuse
      else if !run.item.id.Num? then Abort
      else JudgePick(SelectAggregateCheck(p.checks.value, run.item.id.n))
  }

  predicate Succeeded(item: Item) {
    item.id.Num? && item.status == "completed" && item.conclusion == "success"
  }

  /** The newest run for the exact tag and commit succeeded, and so did its newest aggregate check. */
  ghost predicate ShowsSuccess(p: Poll, ref: string, sha: string) {
    && p.runs.Doc? && p.checks.Doc?
    && exists k: nat, c: nat ::
         && NewestAt(RunEntries(p.runs.value, ref, sha), k) && Succeeded(p.runs.value[k].item)
         && NewestAt(CheckEntries(p.checks.value, p.runs.value[k].item.id.n), c)
         && Succeeded(p.checks.value[c].item)
  }

  /** A turn passes exactly when it shows success. */
  lemma PassMeansSuccess(p: Poll, ref: string, sha: string)
    ensures Judge(p, ref, sha) == Pass <==> ShowsSuccess(p, ref, sha)
  {
    if Judge(p, ref, sha) == Pass {
      var es := RunEntries(p.runs.value, ref, sha);
      NewestMeaning(es);
      var k :| 0 <= k < |es| && NewestAt(es, k) && es[k].item == Newest(es).item;
      var cs := CheckEntries(p.checks.value, es[k].item.id.n);
      NewestMeaning(cs);
      var c :| 0 <= c < |cs| && NewestAt(cs, c) && cs[c].item == Newest(cs).item;
      assert Succeeded(p.runs.value[k].item) && Succeeded(p.checks.value[c].item);
    }
    if ShowsSuccess(p, ref, sha) {
      var k: nat, c: nat :|
        && NewestAt(RunEntries(p.runs.value, ref, sha), k) && Succeeded(p.runs.value[k].item)
        && NewestAt(CheckEntries(p.checks.value, p.runs.value[k].item.id.n), c)
        && Succeeded(p.checks.value[c].item);
      NewestExactly(RunEntries(p.runs.value, ref, sha), k);
      NewestExactly(CheckEntries(p.checks.value, p.runs.value[k].item.id.n), c);
    }
  }

  /** A run of this tag and commit that finished with success. */
  ghost predicate GreenRun(r: Run, ref: string, sha: string, id: int) {
    && r.branch == Some(ref) && Lower(r.sha) == Lower(sha)
    && r.item.id == Num(id) && r.item.status == "completed" && r.item.conclusion == "success"
  }

  /** The aggregate check of this run, by GitHub Actions, that finished with success. */
  ghost predicate GreenCheck(c: Check, id: int) {
    && c.name == Some("check (all jobs passed)") && c.slug == Some("github-actions")
    && (exists i {:trigger c.url[i..]} | 0 <= i <= |c.url| ::
          HasPrefix(c.url[i..], "/actions/runs/" + Render(id) + "/"))
    && c.item.id.Num? && c.item.status == "completed" && c.item.conclusion == "success"
  }

  /** A passing poll contains such a run and such a check of that very run. */
  lemma PassContains(p: Poll, ref: string, sha: string) returns (k: nat, c: nat, id: int)
    requires Judge(p, ref, sha) == Pass
    ensures p.runs.Doc? && p.checks.Doc? && k < |p.runs.value| && c < |p.checks.value|
    ensures GreenRun(p.runs.value[k], ref, sha, id) && GreenCheck(p.checks.value[c], id)
  {
    PassMeansSuccess(p, ref, sha);
    k, c :|
      && NewestAt(RunEntries(p.runs.value, ref, sha), k) && Succeeded(p.runs.value[k].item)
      && NewestAt(CheckEntries(p.checks.value, p.runs.value[k].item.id.n), c)
      && Succeeded(p.checks.value[c].item);
    id := p.runs.value[k].item.id.n;
  }

  /** A poll with one such run and one such check, and nothing else, passes. */
  lemma GreenPasses(now: real, r: Run, c: Check, ref: string, sha: string, id: int)
    requires GreenRun(r, ref, sha, id) && GreenCheck(c, id)
    ensures Judge(Poll(now, Doc([r]), Doc([c])), ref, sha) == Pass
  {
    var p := Poll(now, Doc([r]), Doc([c]));
    assert NewestAt(RunEntries([r], ref, sha), 0);
    assert NewestAt(CheckEntries([c], id), 0);
    PassMeansSuccess(p, ref, sha);
  }

  ghost predicate NewestRun(p: Poll, ref: string, sha: string, k: nat)
    requires p.runs.Doc?
  {
    NewestAt(RunEntries(p.runs.value, ref, sha), k) && p.runs.value[k].item.id.Num?
  }

  ghost predicate NewestCheck(p: Poll, runId: int, c: nat)
    requires p.checks.Doc?
  {
    NewestAt(CheckEntries(p.checks.value, runId), c) && p.checks.value[c].item.id.Num?
  }

  predicate IsRunning(item: Item) {
    item.status != "completed"
  }

  predicate IsBad(item: Item) {
    item.status == "completed" && item.conclusion != "success"
  }

  predicate IsGood(item: Item) {
    item.status == "completed" && item.conclusion == "success"
  }

  /** The newest run is known and good; the verdict is then about its checks. */
  lemma AfterGoodRun(p: Poll, ref: string, sha: string, k: nat)
    requires p.runs.Doc? && NewestRun(p, ref, sha, k) && IsGood(p.runs.value[k].item)
    ensures p.checks.Failed? ==> Judge(p, ref, sha) == Refuse
    ensures p.checks.Doc? ==>
              var id := p.runs.value[k].item.id.n;
              && (!AnyMatch(CheckEntries(p.checks.value, id)) ==> Judge(p, ref, sha) == Wait)
              && (forall c: nat | NewestCheck(p, id, c) ::
                    var item := p.checks.value[c].item;
                    && (IsRunning(item) ==> Judge(p, ref, sha) == Wait)
                    && (IsBad(item) ==> Judge(p, ref, sha) == Refuse)
                    && (IsGood(item) ==> Judge(p, ref, sha) == Pass))
  {
    NewestExactly(RunEntries(p.runs.value, ref, sha), k);
    if p.checks.Doc? {
      var es := CheckEntries(p.checks.value, p.runs.value[k].item.id.n);
      NewestMeaning(es);
      forall c: nat | NewestCheck(p, p.runs.value[k].item.id.n, c)
        ensures Newest(es) == Chosen(p.checks.value[c].item)
      {
        NewestExactly(es, c);
      }
    }
  }

  /**
  A failed request and a finished run without success refuse at once; a run that is not there
  or not finished yet keeps the gate waiting.
  */
  lemma BeforeGoodRun(p: Poll, ref: string, sha: string)
    ensures p.runs.Failed? ==> Judge(p, ref, sha) == Refuse
    ensures p.runs.Doc? && !AnyMatch(RunEntries(p.runs.value, ref, sha)) ==> Judge(p, ref, sha) == Wait
    ensures p.runs.Doc? ==> forall k: nat | NewestRun(p, ref, sha, k) ::
              && (IsRunning(p.runs.value[k].item) ==> Judge(p, ref, sha) == Wait)
              && (IsBad(p.runs.value[k].item) ==> Judge(p, ref, sha) == Refuse)
  {
    if p.runs.Doc? {
      var es := RunEntries(p.runs.value, ref, sha);
      NewestMeaning(es);
      forall k: nat | NewestRun(p, ref, sha, k) ensures Newest(es) == Chosen(p.runs.value[k].item) {
        NewestExactly(es, k);
      }
    }
  }

  // ----- the whole wait

  datatype Outcome = Passed | Refused | Aborted | TimedOut | StillWaiting

  predicate InTime(started: real, p: Poll, timeout: int) {
    p.now - started <= timeout as real
  }

  /** Turns before k all ran in time and decided nothing. */
  ghost predicate Undecided(started: real, polls: seq<Poll>, ref: string, sha: string, timeout: int, k: nat) {
    && k <= |polls|
    && forall i | 0 <= i < k :: InTime(started, polls[i], timeout) && Judge(polls[i], ref, sha) == Wait
  }

  /** Turn k is the first that ends the wait. */
  ghost predicate Decides(started: real, polls: seq<Poll>, ref: string, sha: string, timeout: int, k: nat) {
    && k < |polls| && Undecided(started, polls, ref, sha, timeout, k)
    && (InTime(started, polls[k], timeout) ==> Judge(polls[k], ref, sha) != Wait)
  }

  function OutcomeAt(started: real, p: Poll, ref: string, sha: string, timeout: int): Outcome {
    if !InTime(started, p, timeout) then TimedOut
    else match Judge(p, ref, sha)
      case Pass => Passed
      case Refuse => Refused
      case Abort => Aborted
      case Wait => StillWaiting
  }

  lemma DecisionUnique(started: real, polls: seq<Poll>, ref: string, sha: string, timeout: int, j: nat, k: nat)
    requires Decides(started, polls, ref, sha, timeout, j)
    requires || Decides(started, polls, ref, sha, timeout, k)
             || (k == |polls| && Undecided(started, polls, ref, sha, timeout, k))
    ensures j == k
  {
  }

  /** The first decisive turn within the deadline shows success. */
  ghost predicate GateOpens(started: real, polls: seq<Poll>, ref: string, sha: string, timeout: int) {
    exists k: nat :: Decides(started, polls, ref, sha, timeout, k) && InTime(started, polls[k], timeout)
                     && ShowsSuccess(polls[k], ref, sha)
  }

  /**
  wait_for_release_ci against any answers and any clock. `polls` is a finite part of what the
  environment would do; StillWaiting means that part is used up. `used` counts the polls made.
  */
  method WaitForReleaseCi(started: real, polls: seq<Poll>, ref: string, sha: string, timeout: int)
    returns (out: Outcome, used: nat)
    ensures out == Passed <==> GateOpens(started, polls, ref, sha, timeout)
    ensures out == StillWaiting <==> Undecided(started, polls, ref, sha, timeout, |polls|)
    ensures out != StillWaiting ==>
              exists k: nat :: Decides(started, polls, ref, sha, timeout, k)
                               && out == OutcomeAt(started, polls[k], ref, sha, timeout)
                               && used == if out == TimedOut then k else k + 1
    ensures used <= |polls| && forall i | 0 <= i < used :: InTime(started, polls[i], timeout)
  {
    used := 0;
    while used < |polls| && InTime(started, polls[used], timeout)
      invariant Undecided(started, polls, ref, sha, timeout, used)
    {
      var k := used;
      var v := Judge(polls[k], ref, sha);
      PassMeansSuccess(polls[k], ref, sha);
      used := used + 1;
      if v != Wait {
        DecidedAt(started, polls, ref, sha, timeout, k);
        out := if v == Pass then Passed else if v == Refuse then Refused else Aborted;
        return;
      }
    }
    if used < |polls| {
      DecidedAt(started, polls, ref, sha, timeout, used);
      out := TimedOut;
    } else {
      WaitsToTheEnd(started, polls, ref, sha, timeout);
      out := StillWaiting;
    }
  }

  lemma DecidedAt(started: real, polls: seq<Poll>, ref: string, sha: string, timeout: int, k: nat)
    requires Decides(started, polls, ref, sha, timeout, k)
    ensures !Undecided(started, polls, ref, sha, timeout, |polls|)
    ensures GateOpens(started, polls, ref, sha, timeout)
            <==> InTime(started, polls[k], timeout) && ShowsSuccess(polls[k], ref, sha)
  {
    if GateOpens(started, polls, ref, sha, timeout) {
      var j: nat :| Decides(started, polls, ref, sha, timeout, j) && InTime(started, polls[j], timeout)
                    && ShowsSuccess(polls[j], ref, sha);
      DecisionUnique(started, polls, ref, sha, timeout, j, k);
    }
  }

  lemma WaitsToTheEnd(started: real, polls: seq<Poll>, ref: string, sha: string, timeout: int)
    requires Undecided(started, polls, ref, sha, timeout, |polls|)
    ensures !GateOpens(started, polls, ref, sha, timeout)
  {
  }

  // ----- how long it takes

  /** Every sleep advances the clock by at least `poll` seconds. */
  ghost predicate SleepsAtLeast(started: real, polls: seq<Poll>, poll: int) {
    && (polls != [] ==> started <= polls[0].now)
    && forall i | 0 < i < |polls| :: polls[i].now - polls[i - 1].now >= poll as real
  }

  lemma {:induction false} ClockAdvances(started: real, polls: seq<Poll>, poll: int, i: nat)
    requires SleepsAtLeast(started, polls, poll) && i < |polls|
    ensures polls[i].now >= started + (i * poll) as real
  {
    if i > 0 {
      ClockAdvances(started, polls, poll, i - 1);
      assert i * poll == (i - 1) * poll + poll;
    }
  }

  lemma QuotientBound(k: int, d: int, n: int)
    requires d > 0 && k * d <= n
    ensures k <= n / d
  {
    assert (k - n / d) * d == k * d - (n / d) * d;
    SmallFactor(k - n / d, d);
  }

  lemma SmallFactor(x: int, d: int)
    requires d > 0 && x * d < d
    ensures x <= 0
  {
  }

  /** At most floor(timeout / poll) + 1 polls are made, whatever is answered. */
  lemma PollBound(started: real, polls: seq<Poll>, timeout: int, poll: int, used: nat)
    requires poll > 0 && SleepsAtLeast(started, polls, poll) && used <= |polls|
    requires forall i | 0 <= i < used :: InTime(started, polls[i], timeout)
    ensures timeout >= 0 ==> used <= timeout / poll + 1
    ensures timeout < 0 ==> used == 0
  {
    if used > 0 {
      ClockAdvances(started, polls, poll, used - 1);
      assert InTime(started, polls[used - 1], timeout);
      QuotientBound(used - 1, poll, timeout);
      ClockAdvances(started, polls, poll, 0);
      assert InTime(started, polls[0], timeout);
    }
  }

  /** So the wait always ends: an environment long enough is never used up. */
  lemma WaitEnds(started: real, polls: seq<Poll>, ref: string, sha: string, timeout: int, poll: int)
    requires poll > 0 && timeout >= 0 && SleepsAtLeast(started, polls, poll) && |polls| > timeout / poll + 1
    ensures !Undecided(started, polls, ref, sha, timeout, |polls|)
  {
    if Undecided(started, polls, ref, sha, timeout, |polls|) {
      PollBound(started, polls, timeout, poll, |polls|);
    }
  }

  function SilentPolls(started: real, poll: int, n: nat): seq<Poll> {
    seq(n, i requires 0 <= i < n => Poll(started + (i * poll) as real, Doc([]), Doc([])))
  }

  /** The bound is reached for every timeout and interval. */
  lemma PollBoundIsReached(started: real, ref: string, sha: string, timeout: int, poll: int)
    requires timeout >= 0 && poll > 0
    ensures var n := timeout / poll + 1;
            var polls := SilentPolls(started, poll, n + 1);
            SleepsAtLeast(started, polls, poll) && Decides(started, polls, ref, sha, timeout, n)
            && OutcomeAt(started, polls[n], ref, sha, timeout) == TimedOut
  {
    var n := timeout / poll + 1;
    var polls := SilentPolls(started, poll, n + 1);
    forall i | 0 < i < |polls| ensures polls[i].now - polls[i - 1].now >= poll as real {
      assert i * poll == (i - 1) * poll + poll;
    }
    forall i | 0 <= i < n ensures InTime(started, polls[i], timeout) && Judge(polls[i], ref, sha) == Wait {
      TimesQuotient(i, poll, timeout);
    }
    assert n * poll > timeout;
  }

  lemma TimesQuotient(i: nat, d: int, n: int)
    requires d > 0 && n >= 0 && i <= n / d
    ensures i * d <= n
  {
    assert i * d <= (n / d) * d;
  }

  /** Without a sleep (poll = 0) and with a clock that stands still there is no bound. */
  lemma NoBoundWithoutSleep(started: real, ref: string, sha: string, timeout: int, n: nat)
    requires timeout >= 0
    ensures SleepsAtLeast(started, SilentPolls(started, 0, n), 0)
    ensures Undecided(started, SilentPolls(started, 0, n), ref, sha, timeout, n)
  {
  }

  /** A wait in which this many polls are made. */
  ghost predicate MakesPolls(started: real, polls: seq<Poll>, timeout: int, poll: int, used: nat) {
    && SleepsAtLeast(started, polls, poll) && used <= |polls|
    && forall i | 0 <= i < used :: InTime(started, polls[i], timeout)
  }

  ghost predicate BoundedBy(timeout: int, poll: int, bound: nat) {
    forall started: real, polls: seq<Poll>, used: nat | MakesPolls(started, polls, timeout, poll, used) :: used <= bound
  }

  /** For arguments that pass the validation, the number of polls has a bound exactly when the interval is not 0. */
  lemma BoundedExactly(timeout: int, poll: int)
    requires timeout >= 0 && poll >= 0
    ensures (exists bound: nat :: BoundedBy(timeout, poll, bound)) <==> poll > 0
  {
    if poll > 0 {
      forall started: real, polls: seq<Poll>, used: nat | MakesPolls(started, polls, timeout, poll, used)
        ensures used <= timeout / poll + 1
      {
        PollBound(started, polls, timeout, poll, used);
      }
      assert BoundedBy(timeout, poll, timeout / poll + 1);
    } else {
      forall bound: nat ensures !BoundedBy(timeout, poll, bound) {
        NoBoundWithoutSleep(0.0, "", "", timeout, bound + 1);
        assert MakesPolls(0.0, SilentPolls(0.0, 0, bound + 1), timeout, poll, bound + 1);
      }
    }
  }

  // ----- the command

  predicate IsWord(c: char) {
    'a' <= c <= 'z' || 'A' <= c <= 'Z' || IsDigit(c) || c == '_' || c == '.' || c == '-'
  }

  predicate AllWord(s: string) {
    s != "" && forall i | 0 <= i < |s| :: IsWord(s[i])
  }

  predicate ValidRepository(s: string) {
    exists i | 0 <= i < |s| :: s[i] == '/' && AllWord(s[..i]) && AllWord(s[i + 1..])
  }

  predicate ValidSha(s: string) {
    |s| == 40 && forall i | 0 <= i < |s| :: IsDigit(s[i]) || 'a' <= s[i] <= 'f' || 'A' <= s[i] <= 'F'
  }

  predicate ValidTag(s: string) {
    s != "" && s[0] == 'v' && AllWord(s[1..])
  }

  datatype Args = Args(repository: string, sha: string, ref: string, timeout: int, poll: int)

  predicate ValidArgs(a: Args) {
    ValidRepository(a.repository) && ValidSha(a.sha) && ValidTag(a.ref) && a.timeout >= 0 && a.poll >= 0
  }

  lemma WordMeans(s: string, i: nat)
    requires AllWord(s) && i < |s|
    ensures 'a' <= s[i] <= 'z' || 'A' <= s[i] <= 'Z' || '0' <= s[i] <= '9' || s[i] == '_' || s[i] == '.' || s[i] == '-'
  {
    assert IsWord(s[i]);
  }

  /** owner/name, both made of letters, digits, '_', '.' and '-'. */
  lemma RepositoryMeans(s: string) returns (i: nat)
    requires ValidRepository(s)
    ensures 0 < i < |s| - 1 && s[i] == '/' && AllWord(s[..i]) && AllWord(s[i + 1..])
  {
    i :| 0 <= i < |s| && s[i] == '/' && AllWord(s[..i]) && AllWord(s[i + 1..]);
    assert s[..i] != "" && s[i + 1..] != "";
  }

  /** The arguments that pass: a commit of 40 hexadecimal digits, a v tag, no negative time. */
  lemma ValidArgsMean(a: Args)
    requires ValidArgs(a)
    ensures |a.sha| == 40 && |a.ref| >= 2 && a.ref[0] == 'v' && AllWord(a.ref[1..]) && a.timeout >= 0 && a.poll >= 0
    ensures forall i | 0 <= i < 40 ::
              '0' <= a.sha[i] <= '9' || 'a' <= a.sha[i] <= 'f' || 'A' <= a.sha[i] <= 'F'
  {
    assert a.ref[1..] != "";
  }

  /** The exit status; None when the environment given is used up. `parents` is the commit's answer. */
  method RunGate(a: Args, parents: Answer<nat>, started: real, polls: seq<Poll>) returns (exit: Option<int>)
    ensures exit == Some(0) <==>
              ValidArgs(a) && parents == Doc(1) && GateOpens(started, polls, a.ref, a.sha, a.timeout)
    ensures exit.Some? ==> exit.value == 0 || exit.value == 1
    ensures exit.None? <==>
              ValidArgs(a) && parents == Doc(1) && Undecided(started, polls, a.ref, a.sha, a.timeout, |polls|)
  {
    if !ValidArgs(a) || parents != Doc(1) {
      return Some(1);
    }
    var out, used := WaitForReleaseCi(started, polls, a.ref, a.sha, a.timeout);
    exit := if out == Passed then Some(0) else if out == StillWaiting then None else Some(1);
  }
}
