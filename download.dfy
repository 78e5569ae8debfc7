/**
 * The job records of the listing, what saving one job does to the disk
 * (`_save_prompt`), one page of jobs (`_download_page`) and the page-by-page
 * run (`_paginated_download`) as functions on disk snapshots, with the
 * properties proved about them.
 */
module Jobs {
  import opened Wrappers
  import opened Strings
  import opened Config
  import opened Naming
  import opened Files
  import opened Paths
  import Query

  /**
   * The `ranking_by_user` field: missing or null, an integer, a boolean (a
   * Python `bool` is an `int`, `True` equal to 1), or a value of any other type.
   */
  datatype Ranking = NoRanking | IntRanking(value: int) | BoolRanking(flag: bool) | OtherRanking

  /** Python's truth value of the ranking; a missing one is `None`, which is false. */
  predicate Truthy(r: Ranking)
  {
    match r
    case NoRanking => false
    case IntRanking(n) => n != 0
    case BoolRanking(b) => b
    case OtherRanking => true
  }

  /** The integer value of a ranking that `isinstance(r, int)` accepts: a `bool` is an `int`. */
  function AsInt(r: Ranking): Option<int>
  {
    match r
    case IntRanking(n) => Some(n)
    case BoolRanking(b) => Some(if b then 1 else 0)
    case _ => None
  }

  /** The low-rating test: truthy, an `int`, and 1 or 2. */
  predicate IsLowRated(r: Ranking)
  {
    Truthy(r) && AsInt(r).Some? && (AsInt(r).value == 1 || AsInt(r).value == 2)
  }

  /** The rankings that count as low: 1, 2 and `True`, and no others. */
  lemma LowRatedValues(r: Ranking)
    ensures IsLowRated(r) <==> r == IntRanking(1) || r == IntRanking(2) || r == BoolRanking(true)
  {
  }

  /**
   * One job of the listing. `enqueued` is the date read from `enqueue_time`,
   * `None` when it is missing or does not parse; `msg` is "" when absent.
   */
  datatype JobRecord = JobRecord(id: string, prompt: string, enqueued: Option<Date>,
                                 imageUrls: seq<string>, ranking: Ranking, msg: string)

  /**
   * What `_save_prompt` does with a job: raise (the enqueue time did not
   * parse), return nothing (skipped), or return the path of the last image.
   */
  datatype SaveOutcome = Aborted | Skipped | Saved(path: string)

  /** The path of image `index` of a job: the first is named by the prompt, later ones get suffixes. */
  function ImageFile(dir: string, base: string, index: nat): string
  {
    ImagePath(dir, VariantName(base, index))
  }

  /** The image files written for the first `count` images. */
  function ImageFiles(dir: string, base: string, count: nat): set<string>
  {
    set i | 0 <= i < count :: ImageFile(dir, base, i)
  }

  /** One more image adds one more file name. */
  lemma ImageFilesStep(dir: string, base: string, count: nat)
    ensures ImageFiles(dir, base, count + 1) == ImageFiles(dir, base, count) + {ImageFile(dir, base, count)}
  {
  }

  /** The index whose path `_save_prompt` returns: the last image's, or the first name when there is none. */
  function LastIndex(count: nat): nat
  {
    if count == 0 then 0 else count - 1
  }

  /** Saving a job, on a disk snapshot: the new snapshot and the outcome. */
  function SaveSpec(d: Disk, job: JobRecord, p: Parameters): (Disk, SaveOutcome)
  {
    if job.enqueued.None? then (d, Aborted)
    else
      var date := job.enqueued.value;
      if p.skipLowRated && IsLowRated(job.ranking) then (d, Skipped)
      else if IsDone(d.files, date, job.id) then (d, Skipped)
      else
        var dir := JobDir(LayoutOf(p), date, job.id);
        var base := Sanitize(job.prompt);
        var n := |job.imageUrls|;
        (Disk(d.dirs + DirPrefixes(dir), d.files + ImageFiles(dir, base, n) + {DonePath(dir)}),
         Saved(ImageFile(dir, base, LastIndex(n))))
  }

  /**
   * A job that is skipped or fails leaves the disk as it was; a saved job
   * keeps every directory and file there was, adds the job directory with
   * its ancestors, its images and its done marker, and nothing else.
   */
  lemma SaveEffect(d: Disk, job: JobRecord, p: Parameters)
    ensures var (d1, outcome) := SaveSpec(d, job, p);
      && (outcome == Aborted <==> job.enqueued.None?)
      && (outcome.Saved? <==>
            job.enqueued.Some? && !(p.skipLowRated && IsLowRated(job.ranking))
            && !IsDone(d.files, job.enqueued.value, job.id))
      && (!outcome.Saved? ==> d1 == d)
      && (outcome.Saved? ==>
            var date, n := job.enqueued.value, |job.imageUrls|;
            var dir := JobDir(LayoutOf(p), date, job.id);
            && !(p.skipLowRated && IsLowRated(job.ranking))
            && !IsDone(d.files, date, job.id)
            && d1.dirs == d.dirs + DirPrefixes(dir)
            && (forall f :: f in d1.files <==>
                  f in d.files || f == DonePath(dir)
                  || exists i :: 0 <= i < n && f == ImageFile(dir, Sanitize(job.prompt), i))
            && (n > 0 ==> outcome.path in d1.files)
            && IsDone(d1.files, date, job.id))
  {
    var (d1, outcome) := SaveSpec(d, job, p);
    if outcome.Saved? {
      var date, n := job.enqueued.value, |job.imageUrls|;
      var dir := JobDir(LayoutOf(p), date, job.id);
      DoneInLayout(d1.files, LayoutOf(p), date, job.id);
    }
  }

  /**
   * Saving a job a second time does nothing, whatever the parameters of the
   * second run: the done marker of the first save is found in one of the
   * three layouts, and a low-rated job is skipped either way.
   */
  lemma SaveTwiceSkips(d: Disk, job: JobRecord, p: Parameters, q: Parameters)
    requires SaveSpec(d, job, p).1.Saved?
    ensures var d1 := SaveSpec(d, job, p).0;
      SaveSpec(d1, job, q) == (d1, Skipped)
  {
    var d1 := SaveSpec(d, job, p).0;
    var date := job.enqueued.value;
    DoneInLayout(d1.files, LayoutOf(p), date, job.id);
  }

  /**
   * Saving one job never makes another job (with another id, ids holding no
   * `/`) count as downloaded: its done marker is neither this job's marker
   * nor one of this job's images.
   */
  lemma SaveKeepsOthersPending(d: Disk, job: JobRecord, p: Parameters, other: string, date: Date)
    requires '/' !in job.id && '/' !in other && other != job.id
    ensures IsDone(SaveSpec(d, job, p).0.files, date, other) == IsDone(d.files, date, other)
  {
    if SaveSpec(d, job, p).1.Saved? {
      var dir := JobDir(LayoutOf(p), job.enqueued.value, job.id);
      var base, n := Sanitize(job.prompt), |job.imageUrls|;
      DonePathsDistinct(ByMonth, date, other, LayoutOf(p), job.enqueued.value, job.id);
      DonePathsDistinct(ByDay, date, other, LayoutOf(p), job.enqueued.value, job.id);
      DonePathsDistinct(Flat, date, other, LayoutOf(p), job.enqueued.value, job.id);
      MarkerNotWritten(dir, base, n, JobDir(ByMonth, date, other));
      MarkerNotWritten(dir, base, n, JobDir(ByDay, date, other));
      MarkerNotWritten(dir, base, n, JobDir(Flat, date, other));
    }
  }

  /** A save writes no done marker but its own. */
  lemma MarkerNotWritten(dir: string, base: string, n: nat, otherDir: string)
    requires DonePath(otherDir) != DonePath(dir)
    ensures DonePath(otherDir) !in ImageFiles(dir, base, n) + {DonePath(dir)}
  {
    forall i | 0 <= i < n ensures ImageFile(dir, base, i) != DonePath(otherDir) {
      ImageIsNotDone(dir, VariantName(base, i), otherDir);
    }
  }

  /**
   * When the sanitised name has at most 97 characters, the images of one job
   * are written to pairwise different files, so none overwrites another.
   */
  lemma ImagesDoNotCollide(dir: string, base: string, i: nat, j: nat)
    requires |base| <= VariantStemLength && i != j
    ensures ImageFile(dir, base, i) != ImageFile(dir, base, j)
  {
    if ImageFile(dir, base, i) == ImageFile(dir, base, j) {
      ImagePathInjective(dir, VariantName(base, i), VariantName(base, j));
      if i == 0 {
        ShortBaseIsNeverReused(base, j);
      } else if j == 0 {
        ShortBaseIsNeverReused(base, i);
      } else {
        VariantNamesDistinct(base, i, j);
      }
    }
  }

  /**
   * A sanitised name of 99 characters ending in `-1` names the second image
   * exactly as the first, so the second download overwrites the first.
   */
  lemma LongNameOverwrites(dir: string, base: string)
    requires |base| == 99 && base[97..] == "-1"
    ensures ImageFile(dir, base, 1) == ImageFile(dir, base, 0)
  {
    LongBaseCanBeReused(base);
  }

  /**
   * Exactly when two images of a job share a file: the earlier is the first
   * image, the sanitised name is longer than 97 characters, and its tail from
   * position 97 is `-` followed by the later image's index.
   */
  lemma ImagesCollideExactly(dir: string, base: string, i: nat, j: nat)
    requires i < j
    ensures ImageFile(dir, base, i) == ImageFile(dir, base, j)
        <==> i == 0 && |base| > VariantStemLength && base[VariantStemLength..] == "-" + NatToString(j)
  {
    if ImageFile(dir, base, i) == ImageFile(dir, base, j) {
      ImagePathInjective(dir, VariantName(base, i), VariantName(base, j));
      if i > 0 {
        VariantNamesDistinct(base, i, j);
      }
    }
    if i == 0 {
      ReusedExactly(base, j);
    }
  }

  /** One save step: the new disk and the outcome. */
  type Saver = (Disk, JobRecord) -> (Disk, SaveOutcome)

  /** The save step `_save_prompt` performs under the given parameters. */
  function Saving(p: Parameters): Saver
  {
    (d: Disk, job: JobRecord) => SaveSpec(d, job, p)
  }

  /** The effect of one page of jobs, saved in order; the first failure stops the page. */
  datatype PageRun = PageRun(disk: Disk, outcomes: seq<SaveOutcome>, aborted: bool)

  /** Saving `records` one after the other, defined from the last record back. */
  function SavePage(d: Disk, records: seq<JobRecord>, save: Saver): (r: PageRun)
    ensures |r.outcomes| <= |records|
    ensures r.aborted <==> |r.outcomes| > 0 && r.outcomes[|r.outcomes| - 1] == Aborted
    ensures !r.aborted ==> |r.outcomes| == |records|
    decreases |records|
  {
    if records == [] then PageRun(d, [], false)
    else
      var before := SavePage(d, records[..|records| - 1], save);
      if before.aborted then before
      else
        var (d1, outcome) := save(before.disk, records[|records| - 1]);
        PageRun(d1, before.outcomes + [outcome], outcome == Aborted)
  }

  /** A page of one record is that record's save step. */
  lemma SavePageOne(d: Disk, job: JobRecord, save: Saver)
    ensures SavePage(d, [job], save) == PageRun(save(d, job).0, [save(d, job).1], save(d, job).1 == Aborted)
  {
    assert [job][..0] == [];
  }

  /** One more record after a failure changes nothing. */
  lemma SavePageAfterFailure(d: Disk, records: seq<JobRecord>, save: Saver)
    requires |records| > 0 && SavePage(d, records[..|records| - 1], save).aborted
    ensures SavePage(d, records, save) == SavePage(d, records[..|records| - 1], save)
  {
  }

  /** Once a page has failed, the records after the failure change nothing. */
  lemma {:induction false} SavePageStopsAtFailure(d: Disk, records: seq<JobRecord>, k: nat, save: Saver)
    requires k <= |records| && SavePage(d, records[..k], save).aborted
    ensures SavePage(d, records, save) == SavePage(d, records[..k], save)
    decreases |records| - k
  {
    if k < |records| {
      var next := records[..k + 1];
      assert next[..|next| - 1] == records[..k];
      SavePageAfterFailure(d, next, save);
      SavePageStopsAtFailure(d, records, k + 1, save);
    } else {
      assert records[..k] == records;
    }
  }

  /** The outcomes of a page run are those of saving each record, on the disk the earlier ones left. */
  lemma {:induction false} SavePageOutcomes(d: Disk, records: seq<JobRecord>, save: Saver, i: nat)
    requires i < |SavePage(d, records, save).outcomes|
    ensures SavePage(d, records[..i], save).outcomes == SavePage(d, records, save).outcomes[..i]
    ensures SavePage(d, records, save).outcomes[i]
         == save(SavePage(d, records[..i], save).disk, records[i]).1
    ensures !SavePage(d, records[..i], save).aborted
    decreases |records|
  {
    var before := SavePage(d, records[..|records| - 1], save);
    if i < |records| - 1 && i < |before.outcomes| {
      assert records[..|records| - 1][..i] == records[..i];
      SavePageOutcomes(d, records[..|records| - 1], save, i);
    } else {
      assert records[..|records| - 1] == records[..i];
    }
  }

  /** Saving `a + b` is saving `a`, then, unless that failed, saving `b` on the result. */
  lemma {:induction false} SavePageConcat(d: Disk, a: seq<JobRecord>, b: seq<JobRecord>, save: Saver)
    ensures var ra := SavePage(d, a, save);
      SavePage(d, a + b, save) == if ra.aborted then ra else
        var rb := SavePage(ra.disk, b, save);
        PageRun(rb.disk, ra.outcomes + rb.outcomes, rb.aborted)
    decreases |b|
  {
    var ra := SavePage(d, a, save);
    if b == [] {
      assert a + b == a;
    } else {
      assert (a + b)[..|a + b| - 1] == a + b[..|b| - 1];
      SavePageConcat(d, a, b[..|b| - 1], save);
      if !ra.aborted {
        var rb0 := SavePage(ra.disk, b[..|b| - 1], save);
        if !rb0.aborted {
          assert (ra.outcomes + rb0.outcomes) + [save(rb0.disk, b[|b| - 1]).1]
              == ra.outcomes + (rb0.outcomes + [save(rb0.disk, b[|b| - 1]).1]);
        }
      }
    }
  }

  /** The disk and failure flag of saving `a + b`, from those of saving `a` and then `b`. */
  lemma SavePageConcatEffect(d: Disk, a: seq<JobRecord>, b: seq<JobRecord>, save: Saver)
    requires !SavePage(d, a, save).aborted
    ensures var rb := SavePage(SavePage(d, a, save).disk, b, save);
      SavePage(d, a + b, save).disk == rb.disk && SavePage(d, a + b, save).aborted == rb.aborted
  {
    SavePageConcat(d, a, b, save);
  }

  /** An answer of the listing endpoint: a failed request, or a list of job records. */
  datatype Response = Failed | Page(records: seq<JobRecord>)

  /** The listing as a sequence of answers: page `n` is answered by `server[n - 1]`, pages past the end fail. */
  function FetchAt(server: seq<Response>, page: nat): (r: Response)
    ensures r.Page? ==> 1 <= page <= |server|
  {
    if 1 <= page <= |server| then server[page - 1] else Failed
  }

  const EndMarker: string := "no jobs"

  /** The end-of-results answer: its first record's message, lower-cased, contains `no jobs`. */
  predicate IsEndSentinel(records: seq<JobRecord>)
  {
    |records| > 0 && Contains(Lower(records[0].msg), EndMarker)
  }

  /** An answer is the end sentinel exactly when `no jobs` occurs somewhere in its first message, lower-cased. */
  lemma EndSentinelOccurs(records: seq<JobRecord>)
    ensures IsEndSentinel(records) <==>
      |records| > 0 && exists i: nat :: OccursAt(Lower(records[0].msg), EndMarker, i)
  {
    if |records| > 0 {
      ContainsOccurs(Lower(records[0].msg), EndMarker);
    }
  }

  /** An answer after which the run continues: a non-empty list that is not the end sentinel. */
  predicate Continues(r: Response)
  {
    r.Page? && |r.records| > 0 && !IsEndSentinel(r.records)
  }

  /**
   * A run from the first page, on disk `d0`, has so far saved `pages` pages
   * and left disk `d`, and what remains of it is the run from page `page` on `d`.
   */
  ghost predicate Resumes(server: seq<Response>, page: nat, pages: nat, d0: Disk, d: Disk, save: Saver)
  {
    var rest := RunFrom(server, page, d, save);
    RunFrom(server, 1, d0, save) == Run(rest.disk, rest.pages + pages, rest.aborted)
  }

  /** The effect of a whole run: the disk, how many pages were saved, and whether a failure stopped it. */
  datatype Run = Run(disk: Disk, pages: nat, aborted: bool)

  /** Running from page `page` on: save each answer that continues, stop at the first that does not. */
  function RunFrom(server: seq<Response>, page: nat, d: Disk, save: Saver): Run
    decreases |server| + 1 - page
  {
    var r := FetchAt(server, page);
    if !Continues(r) then Run(d, 0, false)
    else
      var pr := SavePage(d, r.records, save);
      if pr.aborted then Run(pr.disk, 1, true)
      else
        var rest := RunFrom(server, page + 1, pr.disk, save);
        Run(rest.disk, rest.pages + 1, rest.aborted)
  }

  /** The records of pages `page` to `page + count - 1`, in order. */
  function RecordsOf(server: seq<Response>, page: nat, count: nat): seq<JobRecord>
    decreases count
  {
    if count == 0 then []
    else
      var r := FetchAt(server, page);
      (if r.Page? then r.records else []) + RecordsOf(server, page + 1, count - 1)
  }

  /**
   * The pages a run saves are the consecutive pages from the first one on,
   * every one of them a non-empty list that is not the end sentinel; a run
   * that did not fail stops at the first answer that is empty, failed or the
   * sentinel, and does not save that one.
   */
  lemma {:induction false} RunPages(server: seq<Response>, page: nat, d: Disk, save: Saver)
    ensures var run := RunFrom(server, page, d, save);
      && (forall k :: page <= k < page + run.pages ==> Continues(FetchAt(server, k)))
      && (!run.aborted ==> !Continues(FetchAt(server, page + run.pages)))
    decreases |server| + 1 - page
  {
    var r := FetchAt(server, page);
    if Continues(r) {
      var pr := SavePage(d, r.records, save);
      if !pr.aborted {
        RunPages(server, page + 1, pr.disk, save);
      }
    }
  }

  lemma RecordsOfOne(server: seq<Response>, page: nat)
    requires FetchAt(server, page).Page?
    ensures RecordsOf(server, page, 1) == FetchAt(server, page).records
  {
    assert RecordsOf(server, page + 1, 0) == [];
    assert FetchAt(server, page).records + [] == FetchAt(server, page).records;
  }

  /** A run stops, having saved nothing, at an answer that does not continue. */
  lemma RunFromEnd(server: seq<Response>, page: nat, d: Disk, save: Saver)
    requires !Continues(FetchAt(server, page))
    ensures RunFrom(server, page, d, save) == Run(d, 0, false)
  {
  }

  /** A run stops after a page whose saving failed. */
  lemma RunFromFailure(server: seq<Response>, page: nat, d: Disk, save: Saver)
    requires Continues(FetchAt(server, page))
    requires SavePage(d, FetchAt(server, page).records, save).aborted
    ensures RunFrom(server, page, d, save) == Run(SavePage(d, FetchAt(server, page).records, save).disk, 1, true)
  {
  }

  /** A run past a page that continues and is saved without failure. */
  lemma RunFromStep(server: seq<Response>, page: nat, d: Disk, save: Saver)
    requires Continues(FetchAt(server, page))
    requires !SavePage(d, FetchAt(server, page).records, save).aborted
    ensures var rest := RunFrom(server, page + 1, SavePage(d, FetchAt(server, page).records, save).disk, save);
      RunFrom(server, page, d, save) == Run(rest.disk, rest.pages + 1, rest.aborted)
  {
  }

  lemma RecordsOfStep(server: seq<Response>, page: nat, count: nat)
    requires FetchAt(server, page).Page?
    ensures RecordsOf(server, page, count + 1) == FetchAt(server, page).records + RecordsOf(server, page + 1, count)
  {
  }

  /** The run from `page` on has the effect of saving the records of the pages it saves in one sequence. */
  predicate RunMatchesRecords(server: seq<Response>, page: nat, d: Disk, save: Saver)
  {
    var run := RunFrom(server, page, d, save);
    var all := SavePage(d, RecordsOf(server, page, run.pages), save);
    run.disk == all.disk && run.aborted == all.aborted
  }

  /** The inductive step: a page saved without failure, followed by the rest of the run. */
  lemma RunStepMatchesRecords(server: seq<Response>, page: nat, d: Disk, save: Saver)
    requires Continues(FetchAt(server, page))
    requires !SavePage(d, FetchAt(server, page).records, save).aborted
    requires RunMatchesRecords(server, page + 1, SavePage(d, FetchAt(server, page).records, save).disk, save)
    ensures RunMatchesRecords(server, page, d, save)
  {
    var r := FetchAt(server, page);
    var pr := SavePage(d, r.records, save);
    RunFromStep(server, page, d, save);
    var rest := RunFrom(server, page + 1, pr.disk, save);
    RecordsOfStep(server, page, rest.pages);
    SavePageConcatEffect(d, r.records, RecordsOf(server, page + 1, rest.pages), save);
  }

  /**
   * A run has the effect of saving, in one sequence, every record of the pages
   * it saves, in page order and each once.
   */
  lemma {:induction false} RunSavesRecordsInOrder(server: seq<Response>, page: nat, d: Disk, save: Saver)
    ensures RunMatchesRecords(server, page, d, save)
    decreases |server| + 1 - page
  {
    var r := FetchAt(server, page);
    if !Continues(r) {
      assert RecordsOf(server, page, 0) == [];
    } else {
      var pr := SavePage(d, r.records, save);
      if pr.aborted {
        RecordsOfOne(server, page);
      } else {
        RunSavesRecordsInOrder(server, page + 1, pr.disk, save);
        RunStepMatchesRecords(server, page, d, save);
      }
    }
  }

  /** The end sentinel is recognised whatever the case of its message. */
  lemma SentinelIgnoresCase(job: JobRecord)
    requires job.msg == "No Jobs found"
    ensures IsEndSentinel([job])
  {
    var m := Lower(job.msg);
    assert m[..|EndMarker|] == EndMarker;
  }

  /**
   * A listing whose first page holds one job and whose second answer is the
   * end sentinel: exactly that one job is saved, and the sentinel's own
   * record is not, even though it could be saved.
   */
  lemma SentinelPageIsNotSaved(d: Disk, job: JobRecord, end: JobRecord, p: Parameters)
    requires !IsEndSentinel([job]) && end.msg == "No Jobs found"
    ensures var run := RunFrom([Page([job]), Page([end])], 1, d, Saving(p));
      && run.pages == 1
      && run.disk == SaveSpec(d, job, p).0
  {
    var server := [Page([job]), Page([end])];
    var pr := SavePage(d, [job], Saving(p));
    SavePageOne(d, job, Saving(p));
    SentinelIgnoresCase(end);
    assert !Continues(FetchAt(server, 2));
    assert Continues(FetchAt(server, 1));
  }

  /** The URLs of pages 1 to `count`, in the order they are requested. */
  function RequestedUrls(userId: string, p: Parameters, count: nat): (urls: seq<string>)
    ensures |urls| == count
    ensures forall i :: 0 <= i < count ==> urls[i] == Query.ApiUrl(userId, p, i + 1)
  {
    if count == 0 then [] else RequestedUrls(userId, p, count - 1) + [Query.ApiUrl(userId, p, count)]
  }

  /** The downloader as the program drives it: the user's identity and the page loop. */
  class Downloader {
    const userId: string
    const sessionToken: string

    /** `Downloader(user_id, session_token)`; the browser user agent and the cookie are HTTP details. */
    constructor (userId: string, sessionToken: string)
      ensures this.userId == userId && this.sessionToken == sessionToken
    {
      this.userId := userId;
      this.sessionToken := sessionToken;
    }

    /** `_get_api_page`: builds the URL of the page and reads its answer from the listing. */
    method GetApiPage(p: Parameters, page: nat, server: seq<Response>) returns (url: string, response: Response)
      ensures url == Query.ApiUrl(userId, p, page)
      ensures response == FetchAt(server, page)
      ensures response.Page? ==> 1 <= page <= |server|
    {
      url := Query.ApiUrl(userId, p, page);
      response := FetchAt(server, page);
    }

    /**
     * `_ensure_path_exists`: makes each missing directory on the way to the
     * job directory, as the layout dictates, and returns the job directory.
     * Afterwards the job directory and all its ancestors exist, every
     * directory that existed still does, and no file changed.
     */
    method EnsurePathExists(fs: FileSystem, date: Date, id: string, p: Parameters) returns (dir: string)
      requires fs.Valid()
      modifies fs
      ensures fs.Valid()
      ensures dir == JobDir(LayoutOf(p), date, id)
      ensures fs.dirs == old(fs.dirs) + DirPrefixes(dir) && fs.files == old(fs.files)
    {
      JobDirAncestors(LayoutOf(p), date, id);
      if p.dateFolders {
        EnsureDir(fs, YearDir(date));
        EnsureDir(fs, MonthDir(date));
        if p.groupByMonth {
          dir := JobDir(ByMonth, date, id);
          EnsureDir(fs, dir);
        } else {
          EnsureDir(fs, DayDir(date));
          dir := JobDir(ByDay, date, id);
          EnsureDir(fs, dir);
        }
      } else {
        dir := JobDir(Flat, date, id);
        EnsureDir(fs, dir);
      }
    }

    /** The recurring `if not os.path.isdir(path): os.makedirs(path)` of `_ensure_path_exists`. */
    method EnsureDir(fs: FileSystem, path: string)
      requires fs.Valid()
      modifies fs
      ensures fs.Valid()
      ensures fs.dirs == old(fs.dirs) + DirPrefixes(path) && fs.files == old(fs.files)
    {
      if !fs.IsDir(path) {
        fs.MakeDirs(path);
      } else {
        ClosedHas(fs.dirs, path);
      }
    }

    /**
     * The download loop of `_save_prompt`: image `i` goes to the file named
     * by variant `i` of `filename`, each later name cut and suffixed from the
     * previous one. Returns the last path written to, or the first name's
     * path when there are no images.
     */
    method SaveImages(fs: FileSystem, dir: string, filename: string, urls: seq<string>) returns (fullPath: string)
      requires dir in fs.dirs
      modifies fs
      ensures fs.dirs == old(fs.dirs) && fs.files == old(fs.files) + ImageFiles(dir, filename, |urls|)
      ensures fullPath == ImageFile(dir, filename, LastIndex(|urls|))
    {
      var name := filename;
      fullPath := ImagePath(dir, name);
      var idx := 0;
      while idx < |urls|
        invariant idx <= |urls|
        invariant name == VariantName(filename, LastIndex(idx))
        invariant fullPath == ImagePath(dir, name)
        invariant fs.dirs == old(fs.dirs)
        invariant fs.files == old(fs.files) + ImageFiles(dir, filename, idx)
      {
        if idx > 0 {
          name := Take(name, VariantStemLength) + "-" + NatToString(idx);
          fullPath := ImagePath(dir, name);
        }
        assert dir + "/" + (name + ".png") == ImageFile(dir, filename, idx);
        fs.Retrieve(urls[idx], dir, name + ".png");
        ImageFilesStep(dir, filename, idx);
        idx := idx + 1;
      }
    }

    /**
     * `_save_prompt`: skips a low-rated or already downloaded job, otherwise
     * makes the job directory, downloads each image under a name derived from
     * the prompt (the names accumulate suffixes: `name`, `name-1`, `name-1-2`),
     * creates the done marker and returns the last path it wrote to. A job
     * whose enqueue time does not parse fails before anything is written.
     */
    method SavePrompt(fs: FileSystem, job: JobRecord, p: Parameters) returns (outcome: SaveOutcome)
      requires fs.Valid()
      modifies fs
      ensures fs.Valid()
      ensures (fs.State(), outcome) == SaveSpec(old(fs.State()), job, p)
    {
      if job.enqueued.None? {
        return Aborted;
      }
      var date := job.enqueued.value;
      var filename := Sanitize(job.prompt);
      if p.skipLowRated && IsLowRated(job.ranking) {
        return Skipped;
      } else if fs.IsFile(DonePath(JobDir(ByMonth, date, job.id)))
             || fs.IsFile(DonePath(JobDir(ByDay, date, job.id)))
             || fs.IsFile(DonePath(JobDir(Flat, date, job.id))) {
        return Skipped;
      }
      var dir := EnsurePathExists(fs, date, job.id, p);
      var fullPath := SaveImages(fs, dir, filename, job.imageUrls);
      forall i | 0 <= i < |job.imageUrls| ensures ImageFile(dir, filename, i) != DonePath(dir) {
        ImageIsNotDone(dir, VariantName(filename, i), dir);
      }
      fs.CreateExclusive(dir, DoneName);
      return Saved(fullPath);
    }

    /** `_download_page`: saves the records of one page in order; a failure propagates at once. */
    method DownloadPage(fs: FileSystem, p: Parameters, records: seq<JobRecord>)
      returns (outcomes: seq<SaveOutcome>, aborted: bool)
      requires fs.Valid()
      modifies fs
      ensures fs.Valid()
      ensures SavePage(old(fs.State()), records, Saving(p)) == PageRun(fs.State(), outcomes, aborted)
    {
      ghost var d0 := fs.State();
      outcomes, aborted := [], false;
      var i := 0;
      while i < |records| && !aborted
        invariant i <= |records| && fs.Valid()
        invariant SavePage(d0, records[..i], Saving(p)) == PageRun(fs.State(), outcomes, aborted)
      {
        assert records[..i + 1][..i] == records[..i];
        var outcome := SavePrompt(fs, records[i], p);
        outcomes := outcomes + [outcome];
        aborted := outcome == Aborted;
        i := i + 1;
      }
      if aborted {
        SavePageStopsAtFailure(d0, records, i, Saving(p));
      } else {
        assert records[..i] == records;
      }
    }

    /**
     * `_paginated_download`: requests pages 1, 2, 3, ... and saves each
     * answer until one is empty, failed or the end sentinel. Returns the URLs
     * requested and the number of pages saved.
     */
    method PaginatedDownload(fs: FileSystem, p: Parameters, server: seq<Response>)
      returns (urls: seq<string>, pages: nat, aborted: bool)
      requires fs.Valid()
      modifies fs
      ensures fs.Valid()
      ensures RunFrom(server, 1, old(fs.State()), Saving(p)) == Run(fs.State(), pages, aborted)
      ensures urls == RequestedUrls(userId, p, if aborted then pages else pages + 1)
    {
      ghost var d0 := fs.State();
      var page := 1;
      pages, aborted := 0, false;
      var url, response := GetApiPage(p, page, server);
      urls := [url];
      while response.Page? && |response.records| > 0
        invariant fs.Valid() && !aborted
        invariant page == pages + 1 && urls == RequestedUrls(userId, p, page)
        invariant response == FetchAt(server, page)
        invariant Resumes(server, page, pages, d0, fs.State(), Saving(p))
        decreases |server| + 1 - page
      {
        if IsEndSentinel(response.records) {
          break;
        }
        var failed := DownloadListedPage(fs, p, server, page, pages, d0);
        pages := pages + 1;
        if failed {
          aborted := true;
          return;
        }
        page := page + 1;
        url, response := GetApiPage(p, page, server);
        urls := urls + [url];
      }
      RunFromEnd(server, page, fs.State(), Saving(p));
      assert Resumes(server, page, pages, d0, fs.State(), Saving(p));
    }

    /**
     * The body of the page loop of `_paginated_download` for a page that
     * continues: `_download_page` on its records. A failure ends the run
     * there; otherwise the run goes on from the next page.
     */
    method DownloadListedPage(fs: FileSystem, p: Parameters, server: seq<Response>, page: nat,
                              ghost pages: nat, ghost d0: Disk)
      returns (failed: bool)
      requires fs.Valid() && Continues(FetchAt(server, page))
      requires Resumes(server, page, pages, d0, fs.State(), Saving(p))
      modifies fs
      ensures fs.Valid()
      ensures failed ==> RunFrom(server, 1, d0, Saving(p)) == Run(fs.State(), pages + 1, true)
      ensures !failed ==> Resumes(server, page + 1, pages + 1, d0, fs.State(), Saving(p))
    {
      ghost var before := fs.State();
      var outcomes;
      outcomes, failed := DownloadPage(fs, p, FetchAt(server, page).records);
      if failed {
        RunFromFailure(server, page, before, Saving(p));
      } else {
        RunFromStep(server, page, before, Saving(p));
      }
    }

    /** `download`: bundles the options into parameters and runs the page loop. */
    method Download(fs: FileSystem, kind: DownloadKind, orderBy: string, dateFolders: bool,
                    groupByMonth: bool, skipLowRated: bool, server: seq<Response>)
      returns (urls: seq<string>, pages: nat, aborted: bool)
      requires fs.Valid()
      modifies fs
      ensures fs.Valid()
      ensures var p := Parameters(kind, orderBy, dateFolders, groupByMonth, skipLowRated);
        RunFrom(server, 1, old(fs.State()), Saving(p)) == Run(fs.State(), pages, aborted)
      ensures var p := Parameters(kind, orderBy, dateFolders, groupByMonth, skipLowRated);
        urls == RequestedUrls(userId, p, if aborted then pages else pages + 1)
    {
      var p := Parameters(kind, orderBy, dateFolders, groupByMonth, skipLowRated);
      urls, pages, aborted := PaginatedDownload(fs, p, server);
    }
  }
}
