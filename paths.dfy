/**
 * Where a job's files go (`_ensure_path_exists` and the checks of
 * `_save_prompt` in src/download.py): `jobs/<id>`, `jobs/<year>/<month>/<id>`
 * or `jobs/<year>/<month>/<day>/<id>`, with the numbers written as by
 * `str`, so without leading zeros.
 */
module Paths {
  import opened Strings
  import opened Config
  import opened Files

  /** The calendar date of a job's enqueue time. */
  datatype Date = Date(year: nat, month: nat, day: nat)

  /** The three directory layouts. */
  datatype Layout = Flat | ByMonth | ByDay

  /** Date folders off: flat; on: by month when grouping by month, by day otherwise. */
  function LayoutOf(p: Parameters): (layout: Layout)
    ensures layout == Flat <==> !p.dateFolders
    ensures layout == ByMonth <==> p.dateFolders && p.groupByMonth
    ensures layout == ByDay <==> p.dateFolders && !p.groupByMonth
  {
    if !p.dateFolders then Flat else if p.groupByMonth then ByMonth else ByDay
  }

  const Root: string := "jobs"

  function YearDir(date: Date): string
  {
    Root + "/" + NatToString(date.year)
  }

  function MonthDir(date: Date): string
  {
    YearDir(date) + "/" + NatToString(date.month)
  }

  function DayDir(date: Date): string
  {
    MonthDir(date) + "/" + NatToString(date.day)
  }

  /** The directory that holds the job directories of a layout. */
  function ParentDir(layout: Layout, date: Date): string
  {
    match layout
    case Flat => Root
    case ByMonth => MonthDir(date)
    case ByDay => DayDir(date)
  }

  function JobDir(layout: Layout, date: Date, id: string): string
  {
    ParentDir(layout, date) + "/" + id
  }

  const DoneName: string := "done"

  /** The empty marker file that says a job has been downloaded. */
  function DonePath(dir: string): string
  {
    dir + "/" + DoneName
  }

  function ImagePath(dir: string, name: string): string
  {
    dir + "/" + name + ".png"
  }

  /** A job counts as downloaded when its marker exists in any of the three layouts. */
  predicate IsDone(files: set<string>, date: Date, id: string)
  {
    DonePath(JobDir(ByMonth, date, id)) in files
    || DonePath(JobDir(ByDay, date, id)) in files
    || DonePath(JobDir(Flat, date, id)) in files
  }

  /** The marker of the chosen layout is one of those that make a job count as downloaded. */
  lemma DoneInLayout(files: set<string>, layout: Layout, date: Date, id: string)
    requires DonePath(JobDir(layout, date, id)) in files
    ensures IsDone(files, date, id)
  {
  }

  /**
   * The directories made one after the other for a layout (`jobs/<year>`,
   * `jobs/<year>/<month>`, then the day directory) are all ancestors of the
   * job directory, so making the job directory alone would make them too.
   */
  lemma JobDirAncestors(layout: Layout, date: Date, id: string)
    ensures layout != Flat ==>
      DirPrefixes(YearDir(date)) <= DirPrefixes(MonthDir(date)) <= DirPrefixes(JobDir(layout, date, id))
    ensures layout == ByDay ==> DirPrefixes(DayDir(date)) <= DirPrefixes(JobDir(layout, date, id))
    ensures Root in DirPrefixes(JobDir(layout, date, id))
  {
    DirPrefixesOfChild(YearDir(date), NatToString(date.month));
    DirPrefixesOfChild(MonthDir(date), NatToString(date.day));
    DirPrefixesOfChild(ParentDir(layout, date), id);
    DirPrefixesOfChild(Root, NatToString(date.year));
    assert Root in DirPrefixes(Root);
  }

  lemma SlashNotInDone()
    ensures '/' !in DoneName
  {
  }

  /**
   * Two job directories are the same only for the same id, whatever the
   * layouts and dates, as long as ids hold no `/`.
   */
  lemma JobDirDeterminesId(l1: Layout, d1: Date, id1: string, l2: Layout, d2: Date, id2: string)
    requires '/' !in id1 && '/' !in id2
    requires JobDir(l1, d1, id1) == JobDir(l2, d2, id2)
    ensures id1 == id2
  {
    LastPiece('/', ParentDir(l1, d1), id1, ParentDir(l2, d2), id2);
  }

  /** Done markers of jobs with different ids never coincide. */
  lemma DonePathsDistinct(l1: Layout, d1: Date, id1: string, l2: Layout, d2: Date, id2: string)
    requires '/' !in id1 && '/' !in id2 && id1 != id2
    ensures DonePath(JobDir(l1, d1, id1)) != DonePath(JobDir(l2, d2, id2))
  {
    if DonePath(JobDir(l1, d1, id1)) == DonePath(JobDir(l2, d2, id2)) {
      SlashNotInDone();
      LastPiece('/', JobDir(l1, d1, id1), DoneName, JobDir(l2, d2, id2), DoneName);
      JobDirDeterminesId(l1, d1, id1, l2, d2, id2);
    }
  }

  /** An image file is never a done marker: one ends in `.png`, the other in `/done`. */
  lemma ImageIsNotDone(dir: string, name: string, dir2: string)
    ensures ImagePath(dir, name) != DonePath(dir2)
  {
    var image, done := ImagePath(dir, name), DonePath(dir2);
    assert image[|image| - 1] == 'g';
    assert done[|done| - 1] == 'e';
  }

  /** Within one directory, different names give different image files. */
  lemma ImagePathInjective(dir: string, name1: string, name2: string)
    requires ImagePath(dir, name1) == ImagePath(dir, name2)
    ensures name1 == name2
  {
    var k := |dir| + 1;
    assert name1 == ImagePath(dir, name1)[k..k + |name1|];
    assert name2 == ImagePath(dir, name2)[k..k + |name2|];
  }
}
