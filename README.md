# Midjourney image downloader, modelled in Dafny

This project models the core of the Midjourney image downloader
(`src/download.py`). The downloader pages through the listing of a user's
completed jobs. For each job it chooses a directory, downloads every image
under a name derived from the prompt, and marks the job as done. The model
covers:

- the download options (`DownloadKind`, `Parameters`), in `config.dfy`;
- the URL of one listing page, with its `jobType` filter, in `query.dfy`;
- the prompt sanitiser and the names of a job's images, in `naming.dfy`;
- the three directory layouts and the done marker, in `paths.dfy`;
- the file system as a set of directories and a set of files, in `files.dfy`.
  `os.makedirs` adds a path and all its ancestors. `urlretrieve` creates or
  overwrites a file. `open(path, "x")` creates a file that must not exist yet;
- saving one job (`_save_prompt`), one page (`_download_page`) and the page
  loop (`_paginated_download`), in `download.dfy`.
  Each is a method of the `Downloader` class that changes a `FileSystem`
  object in place. Each is proved equal to a function on disk snapshots
  (`SaveSpec`, `SavePage`, `RunFrom`), and the properties are proved about
  those functions.

The listing server is a parameter: a sequence of answers, where page `n` is
answered by element `n - 1` and every page past the end fails. A job record
carries its id, prompt, parsed enqueue date (`None` when `enqueue_time` is
missing or does not parse), image URLs, `ranking_by_user` and `msg`.

Some of the code's behaviour is easy to misread. The model follows the code:

- The `__` → `_` replacement is a single pass of Python's `str.replace`, so
  `a___b` becomes `a__b` (`Naming.CollapseIsSinglePass`). The strip comes
  before the cut to 100 characters, so a name can still end with `_`
  (`Naming.CutCanEndWithUnderscore`).
- Image names accumulate suffixes. Each later name is built from the
  previous one, cut to 97 characters, so the names are `name`, `name-1`,
  `name-1-2`, … (`Naming.VariantNamesAccumulate`). A sanitised name of 99
  characters that ends in `-1` gives the second image the first image's
  file name, so the second download overwrites the first
  (`Jobs.LongNameOverwrites`). In general two images of a job share a file
  exactly when one is the first image, the sanitised name is longer than 97
  characters, and its tail from position 97 is `-` and the other image's index
  (`Jobs.ImagesCollideExactly`).
- A job is skipped when its `done` marker exists in any of the three
  layouts. The existence of the primary image is not checked. No output
  path option, prompt sidecar files or by-prompt directory exist in the code.
- `_save_prompt` returns the path of the last image written, not the
  primary one.

## Model

| member | source | states |
|---|---|---|
| Strings.ContainsOccurs | src/download.py:126 | Python's `sub in s` holds exactly when `sub` occurs at some position of `s` |
| Strings.ParseNatToString | src/download.py:38 | the decimal rendering of the page number reads back as that number |
| Strings.Strip | src/download.py:96 | `strip("_*")` gives the slice of the input after its leading run of stripped characters, with no stripped character at either end, and every character removed before or after that slice is a stripped one |
| Naming.SanitizeBounds | src/download.py:95-96 | the file name is at most 100 characters, has none of the removed characters and no upper-case letter, and does not start with `_` |
| Naming.SanitizeCleanText | src/download.py:95-96 | on text the sanitiser has nothing to remove, lower or strip, it only cuts to 100 characters |
| Naming.SanitizeFixesCleanNames | src/download.py:95-96 | a clean name of at most 100 characters is its own sanitised form |
| Naming.CollapseIsSinglePass | src/download.py:95-96 | three underscores between letters become two, not one: the `__` replacement is a single pass |
| Naming.CutCanEndWithUnderscore | src/download.py:95-96 | a 101-character prompt whose 100th character is `_` keeps it at the end of the name |
| Naming.VariantNameSuffix | src/download.py:108-111 | every image name after the first ends with `-` and the image's index in decimal |
| Naming.LongVariantName | src/download.py:108-111 | for a base of at least 97 characters, name `i > 0` is the base cut to 97 characters, `-` and `i`: earlier suffixes are cut away |
| Naming.ReusedExactly | src/download.py:107-111 | name `i > 0` equals the first name exactly when the base is longer than 97 characters and its tail from position 97 is `-{i}` |
| Naming.VariantNameChars | src/download.py:108-111 | image names hold only characters of the base name, `-` and digits |
| Naming.VariantNameExtends | src/download.py:108-111 | while the previous name has at most 97 characters, the next is that name plus `-` and the index |
| Naming.VariantNamesAccumulate | src/download.py:108-111 | for a base of at most 93 characters the second and third names are `base-1` and `base-1-2` |
| Naming.VariantNamesDistinct | src/download.py:108-111 | the second, third, … images never share a name |
| Naming.ShortBaseIsNeverReused | src/download.py:107-111 | for a base of at most 97 characters no later image takes the first image's name |
| Naming.LongBaseCanBeReused | src/download.py:107-111 | a 99-character base ending in `-1` is also the second image's name |
| Naming.ReusedNameExample | src/download.py:95-111 | there is a prompt whose second image name equals its first |
| Query.ApiUrlEncodesParams | src/download.py:36-46 | the page URL is the endpoint, `?`, and the `&`-joined `key=value` list of the query parameters |
| Query.ApiUrlQuery | src/download.py:35-46 | the query string of the page URL decodes to `orderBy`, `jobStatus=completed`, `userId`, `dedupe=true`, `refreshApi=0`, `amount=50`, `page`, then `jobType=upscale` or `jobType=grid` for those kinds and nothing for `all` |
| Query.ApiUrlCarries | src/download.py:35-46 | for an order and a user id without `&`, each parameter of the page URL reads back as the order, the user id, 50, the page number and the kind's job type |
| Query.ApiUrlPageInjective | src/download.py:36-38 | different pages are requested at different URLs |
| Paths.LayoutOf | src/download.py:63-82 | flat when date folders are off; by month when they are on and grouping by month; by day otherwise |
| Paths.JobDirAncestors | src/download.py:63-78 | the year, month and day directories made first are all ancestors of the job directory, and so is `jobs` |
| Paths.DoneInLayout | src/download.py:101-103 | the marker written in the chosen layout is one of the three markers checked |
| Paths.DonePathsDistinct | src/download.py:101-103 | done markers of jobs with different ids (ids without `/`) never coincide, in any layouts |
| Paths.ImageIsNotDone | src/download.py:107-116 | an image file is never a done marker |
| Files.FileSystem.MakeDirs | src/download.py:66 | `os.makedirs` adds the path and all its ancestors, keeps every directory there was, and changes no file |
| Files.FileSystem.Retrieve | src/download.py:115 | `urlretrieve` into an existing directory creates or overwrites that one file and changes nothing else |
| Files.FileSystem.CreateExclusive | src/download.py:116-118 | `open(path, "x")` on an absent file creates it and changes nothing else |
| Jobs.LowRatedValues | src/download.py:99 | the low-rating test holds for the rankings 1, 2 and `True` (a `bool` is an `int` equal to 1) and for no other value |
| Jobs.EndSentinelOccurs | src/download.py:126 | an answer is the end sentinel exactly when it is non-empty and `no jobs` occurs in its first message, lower-cased |
| Jobs.Downloader.constructor | src/download.py:25-29 | the downloader keeps the user id and the session token |
| Jobs.Downloader.GetApiPage | src/download.py:35-53 | requests the URL of the page and returns the listing's answer for it |
| Jobs.Downloader.EnsureDir | src/download.py:65-66 | after the `isdir`/`makedirs` pair the path and its ancestors exist and nothing else changed |
| Jobs.Downloader.EnsurePathExists | src/download.py:63-82 | returns the job directory of the chosen layout; afterwards it and its ancestors exist, old directories remain and no file changed |
| Jobs.Downloader.SaveImages | src/download.py:107-115 | image `i` is written to the file of variant name `i`; exactly those files are added; returns the last path, or the first name's path when there are no images |
| Jobs.Downloader.SavePrompt | src/download.py:85-119 | the new file system and the outcome are those of `SaveSpec` on the old one |
| Jobs.SaveEffect | src/download.py:85-119 | a job fails exactly when its date is missing; it is saved exactly when its date is present, it is not skipped as low-rated and it is not done; a failed or skipped job changes nothing; a saved job adds its directory with ancestors, its images and its marker and nothing else, returns an existing image path when it has images, and is done afterwards |
| Jobs.SaveTwiceSkips | src/download.py:98-104 | a saved job is skipped without change on a second run, whatever that run's parameters |
| Jobs.SaveKeepsOthersPending | src/download.py:101-117 | for ids without `/`, saving a job never changes whether another job counts as downloaded |
| Jobs.ImagesDoNotCollide | src/download.py:107-115 | for a sanitised name of at most 97 characters, a job's images go to pairwise different files |
| Jobs.ImagesCollideExactly | src/download.py:107-115 | images `i < j` of a job go to the same file exactly when `i` is the first image, the sanitised name is longer than 97 characters and its tail from position 97 is `-{j}` |
| Jobs.LongNameOverwrites | src/download.py:107-115 | for a 99-character sanitised name ending in `-1` the second image is written over the first |
| Jobs.SavePage | src/download.py:56-60 | a page run has at most one outcome per record, fails exactly when its last outcome is a failure, and has one outcome per record when it did not fail |
| Jobs.SavePageOutcomes | src/download.py:56-60 | outcome `i` of a page is the save of record `i` on the disk the earlier records left, and none of them failed |
| Jobs.SavePageStopsAtFailure | src/download.py:56-60 | once a record fails, the later records of the page change nothing |
| Jobs.SavePageConcat | src/download.py:56-60 | saving `a + b` is saving `a`, then, unless that failed, saving `b` on the result |
| Jobs.Downloader.DownloadPage | src/download.py:56-60 | the new file system, the outcomes and the failure flag are those of `SavePage` on the old one |
| Jobs.RunPages | src/download.py:122-133 | the saved pages are consecutive from the first, each a non-empty list that is not the end sentinel; a run that did not fail stops at the first page that is empty, failed or the sentinel |
| Jobs.RunSavesRecordsInOrder | src/download.py:122-133 | a run has the effect of saving every record of its saved pages once, in page order |
| Jobs.SentinelIgnoresCase | src/download.py:126 | the message `No Jobs found` is the end sentinel |
| Jobs.SentinelPageIsNotSaved | src/download.py:125-131 | with one job on page 1 and the sentinel on page 2, one page is saved and the disk is that of saving the one job |
| Jobs.RequestedUrls | src/download.py:123-133 | request `i` is for page `i + 1`: pages are requested as 1, 2, 3, … without gaps |
| Jobs.Downloader.PaginatedDownload | src/download.py:122-133 | the new file system, page count and failure flag are those of `RunFrom` from page 1; the URLs requested are those of pages 1 to the last page fetched |
| Jobs.Downloader.DownloadListedPage | src/download.py:128-131 | saving one listed page either ends the run there, having saved one more page, or leaves the rest of the run to start at the next page |
| Jobs.Downloader.Download | src/download.py:31-33 | bundles the options into parameters and has the effect of the page loop on them: the same file system, page count, failure flag and requested URLs |

## Left out

- HTTP is not modelled: the request, its cookie and user-agent headers, the
  URL opener, and the contents of the downloaded images. The listing is a
  sequence of answers and an image is only a file name.
- A request error makes `_get_api_page` return nothing, which ends the loop;
  this is the `Failed` answer. A body that is not JSON gives the same answer:
  `response.json()` then raises the `requests` library's `JSONDecodeError`,
  which is a `RequestException` and is caught at `src/download.py:52`.
- An answer that is a non-empty dictionary rather than a list is not
  modelled. The code would iterate its keys and fail.
- `datetime.strptime` is not modelled. The parsed date is part of the job
  record, and `None` stands for a time that is missing or does not parse.
  That raises in the code, which ends the run (`Aborted`).
- A record without an `id` is not a failure: the f-strings render the id as
  `None`, so such jobs go to a `None` job directory. In the flat layout they
  all share `jobs/None/done`; in the date layouts they share a marker only
  within one month (by month) or one day (by day). The
  model covers this as the job whose id is the string `None`.
- A record without a `prompt` is not modelled. `prompt.replace` raises on
  `None`, which would end the run before anything is written for it.
- `urlretrieve` raising (a download error) is not modelled: the code keeps
  the directories and the images already written, writes no done marker and
  ends the run. `FileSystem.Retrieve` always succeeds.
- `"image_paths": null` is not modelled: `enumerate(None)` raises after the
  job's directories have been made, so the run ends with those directories
  and no marker. A missing `image_paths` is the empty list, which is modelled.
- `print` output (progress lines, "Downloaded …", "Reached end …") is left out.
- The command-line entry point and `setup.py` are not part of this model.
- Strings.Lower: lower-cases ASCII letters only. Python's `str.lower` also
  folds other scripts.
- Files.FileSystem.MakeDirs: does not model failures of `os.makedirs` such as
  a file sitting at the path, permissions, or path normalisation.
- Files.FileSystem.CreateExclusive: requires that no file exists at the
  marker path. Every save that reaches it has just checked that with
  `os.path.isfile`. A directory sitting at a file path (the marker or an
  image) is not modelled: the disk's directories and files are separate sets,
  so one path can be both. In the code, a directory at the marker path passes
  the `isfile` checks and `open(path, "x")` then raises, ending the run; the
  model saves the job. It takes unusual ids, for example a by-day job with id
  `done` and a by-month job whose id is that day's number.
- Query.ApiUrlCarries: holds for an order and a user id without `&`, like
  Query.ApiUrlQuery below. A user id `u&userId=v` makes `userId` read back
  as `u`.
- Jobs.SaveKeepsOthersPending: holds for ids without `/`. A job with id
  `2023/5/b` saved in the flat layout writes `jobs/2023/5/b/done`, which is
  the by-month done marker of job `b` for May 2023.
- Jobs.Downloader.PaginatedDownload: the listing is finite, so the loop always
  ends. A server that never answers with an empty page or the sentinel would
  keep the code running forever.
- Query.ApiUrlQuery: holds for an order and user id without `&`. The code
  puts them in the URL without URL-encoding, so an `&` in either would add
  parameters.
- Paths.DonePathsDistinct: holds for ids without `/`. The code joins the id
  into the path without checking it.
