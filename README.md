# photo-tools: capture dates and batch renaming, modelled in Dafny

This project models the two non-graphical scripts of photo-tools:

- **`fix_dates.py`**. It reads a photo's or video's metadata through ExifTool and picks the best capture date from a fixed priority list of seven tags. It normalises that date to `YYYY:MM:DD HH:MM:SS`, writes it back into the file's metadata and filesystem dates, and then checks the filesystem times. When the times are off it falls back to SetFile, then reports per file and counts successes over a folder.
- **`rename_files.py`**. It builds a `YYYYMM-tag-camera-film` prefix from cleaned tokens and sorts a batch of files by (capture date, lower-cased name) with a stable sort. Each file gets `prefix-NN.ext` with a zero-padded ordinal. The renames are then carried out with collision checks.

The model is written in the scripts' own terms:
- A tag's raw value is `FixDates.Raw`: `None`, text or an integer, or a list of which only the first item is read.
- A file's metadata is a map from tag names to raw values.
- Paths are a directory and a base name (`Paths.Path`).
- Times are integers in microseconds, so the two-second tolerance is exact.

Everything the scripts learn from outside is a parameter:
- ExifTool's JSON output;
- whether ExifTool and SetFile are installed;
- how each external run exits and what it prints;
- what `os.stat` reports before and after;
- the local-time conversion of `datetime.fromtimestamp`;
- the listing `os.walk` or `os.listdir` produces.

Code that works step by step is imperative Dafny, each method proved against a function that specifies it:
- `FixDates.SetFileTimesFromBest` and its parts, against `FileOutcome`;
- `FixDates.FixDatesInFolder`, against `CountSucceeding` and `FileOutcome`;
- `RenameFiles.PlanNewNames` and its numbering loop `RenameFiles.NumberFiles`, against `Plan` and `Numbered`;
- `RenameFiles.Folder.ApplyPlan`, against the fold `Run`/`Step`.

In `ApplyPlan`, the folder is a class whose `files` map, from paths to file identities, is updated by each rename.

Where a comment in the source and the code disagree, the model follows the code:
- `build_prefix` says it drops "empty trailing parts"; the code drops every empty part.
- The "no usable date" message lists `TAG_CANDIDATES`, five bare tag names. The seven qualified tags actually tried are not listed.
- `_to_text` rejects only the exact text `0000:00:00 00:00:00`. Zero dates spelled with hyphens or a `T`/zone suffix therefore pass normalisation as the zero date (`FixDates.NormalizeLetsHyphenSentinelThrough`, `FixDates.NormalizeLetsZonedSentinelThrough`), so normalisation is idempotent only on other canonical strings.
- In `apply_plan` a rename that raises still claims its name in `targets`, because the name is added before `os.rename` runs.

Modules:
- `Wrappers` holds `Option` and `Result`.
- `Text` holds the Python string operations used:
  - `strip` with Python's whitespace set;
  - `replace` with and without a count;
  - `str(int)` and the zero-padding format;
  - `lower` and `<` on strings.
- `Timestamps` holds the canonical date shape and `datetime.strptime` on it.
- `Paths` holds `os.path.join`, `basename` and `splitext`.
- `FixDates` and `RenameFiles` model the two scripts.

## Model

| member | source | states |
|---|---|---|
| FixDates.ToText | fix_dates.py:47-63 | `None` gives absent. A present result is non-empty, is not the zero sentinel, and starts and ends with a non-blank character. |
| FixDates.ToTextStrips | fix_dates.py:47-63 | Which text comes back. A value other than `None` gives absent exactly when `str` of its item is all whitespace or strips to the sentinel. A present result is that text with whitespace cut from its two ends and nothing else. |
| FixDates.ToTextFirstItemOnly | fix_dates.py:51-52 | A list value reads as its first item; the other items never matter. |
| FixDates.Normalize | fix_dates.py:65-83 | The result is absent or a string of the canonical 19-character shape `DDDD:DD:DD DD:DD:DD`. Absent text gives absent. |
| FixDates.NormalizeAbsent | fix_dates.py:47-75 | `None`, blank text and text that strips to the zero sentinel all normalise to absent. |
| FixDates.NormalizeSupportedShapes | fix_dates.py:65-82 | Any canonical date spelled with `-` or `:` date separators, a space or `T` before the time, and any trailing text (zone offset, `Z`) normalises to the canonical date. The one exception is the literal sentinel. |
| FixDates.NormalizeLeadingBlanks | fix_dates.py:60-73 | Whitespace in front of a value never changes how it normalises, so every supported spelling may also be indented. |
| FixDates.HyphensRewritten | fix_dates.py:79-80 | Only the first two `-` become `:`; the time of day is untouched. |
| FixDates.DropZoneLeftmost | fix_dates.py:77 | Text with no time match from the search position on is returned unchanged. Otherwise the leftmost match wins: the text before it, a space, and the eight time characters, with everything after them dropped. |
| FixDates.ZoneDropped | fix_dates.py:77 | The zone-dropping substitution keeps the first 19 characters, with the `T` turned into a space. |
| FixDates.NormalizeIdempotent | fix_dates.py:81-83 | A canonical string other than the sentinel normalises to itself. |
| FixDates.NormalizeExamples | fix_dates.py:68-72 | The docstring's three shapes (and a `Z` suffix) all normalise to `2024:04:28 14:19:45`. |
| FixDates.NormalizeLetsHyphenSentinelThrough | fix_dates.py:60-82 | `0000-00-00 00:00:00` is not caught by the sentinel check and normalises to the sentinel. |
| FixDates.NormalizeLetsZonedSentinelThrough | fix_dates.py:60-82 | `0000:00:00T00:00:00Z` normalises to the sentinel too. |
| FixDates.GetBestDatetime | fix_dates.py:158-177 | The result is absent exactly when none of the seven tags normalises; otherwise the value is canonical. |
| FixDates.GetBestDatetimeFirstUsable | fix_dates.py:164-176 | The chosen tag is the first in priority order whose value normalises, and its value is that normalisation. |
| FixDates.EarlierTagWins | fix_dates.py:173-176 | If tag `j` is usable, the chosen tag is tag `j` or an earlier one. |
| FixDates.ResolutionReadsOnlyDateTags | fix_dates.py:164-172 | Two metadata records that agree on the seven tags resolve alike. |
| FixDates.ExifToSetFileFmt | fix_dates.py:191-197 | The result is `MM/DD/YYYY HH:MM:SS`, and the month, day, year and time characters can be read back unchanged. |
| FixDates.SetFileFmtInjective | fix_dates.py:191-197 | Distinct canonical dates give distinct SetFile dates. |
| FixDates.CloseEnough | fix_dates.py:199-202 | True exactly when both times are present and at most two seconds apart. |
| FixDates.CloseEnoughSymmetric | fix_dates.py:199-202 | The tolerance check is symmetric. |
| FixDates.CloseEnoughBoundary | fix_dates.py:199-202 | Two seconds passes; 2 s + 1 µs and 3 s fail; an absent time fails. |
| FixDates.IterFiles | fix_dates.py:121-132 | Yields exactly the listed entries whose lower-cased name ends in a media extension: every non-directory when walking, regular files only when listing. |
| FixDates.CopyArgsSpelled | fix_dates.py:220-234 | The copy options are the five photo fields or the six video fields, each followed by the tag. |
| FixDates.WriteCommandLaunches | fix_dates.py:220-235 | The assembled command has three more arguments than there are fields. It starts with the program and `-overwrite_original` and ends with the path. Argument `i + 2` is field `i` followed by the tag. |
| FixDates.WriteCallAsWrittenRaises | fix_dates.py:237-242 | The call as written passes `...`, so it can never start, and it differs from the assembled command. |
| FixDates.BuildWriteCommand | fix_dates.py:220-235 | Builds, by appends, exactly the command `WriteCommandLaunches` describes. |
| FixDates.FallbackCallsShape | fix_dates.py:253-261 | The fallback runs SetFile at most twice: only when needed and SetFile is installed, `-d` first, and `-m` only after `-d` exited 0. |
| FixDates.VerifyAndRepair | fix_dates.py:250-268 | The check, fallback and recheck give exactly the specified report and tool runs. |
| FixDates.WriteAndVerify | fix_dates.py:237-268 | The write-and-verify steps give exactly the specified outcome. |
| FixDates.SetFileTimesFromBest | fix_dates.py:204-268 | The whole per-file procedure gives exactly the specified success flag, report and tool runs. |
| FixDates.WriteOutcomeFacts | fix_dates.py:237-268 | The write runs first. Success is the write's exit status, and the report names the file. A failed write or an unparseable date runs nothing more. |
| FixDates.FileOutcomeSucceeds | fix_dates.py:208-268 | A file succeeds exactly when a date resolves and either it is a dry run or the write exited 0. |
| FixDates.UnresolvedRunsNothing | fix_dates.py:210-211 | No usable date means failure, the candidate list in the report, and no tool run. |
| FixDates.DryRunRunsNothing | fix_dates.py:213-215 | A dry run runs no tool and previews the fields, value and tag. |
| FixDates.WriteComesFirst | fix_dates.py:237-242 | The first run is the ExifTool write; if it fails, the outcome is failure with its stripped output. |
| FixDates.SetFileOnlyAfterFailedCheck | fix_dates.py:251-258 | SetFile runs only outside a dry run, after a successful write of a parsed date whose filesystem times were off, and only if it is installed. |
| FixDates.FallbackSuffix | fix_dates.py:263-268 | After a successful write the result is success. The report is the plain success line exactly when the times end on target, and it carries the fallback suffix exactly when the fallback was needed. |
| FixDates.FixDatesInFolder | fix_dates.py:270-283 | Without ExifTool it fails before any file. Otherwise ok + fail is the number of files iterated, ok counts the succeeding files, and one report is printed per file, in order. |
| Timestamps.ParseTimestamp | fix_dates.py:245-248 | `strptime` succeeds exactly on calendar-valid dates and times. |
| Timestamps.SentinelUnparseable | fix_dates.py:245-248 | The zero date does not parse. |
| RenameFiles.CleanToken | rename_files.py:65-70 | The output holds only `[A-Za-z0-9-]`; `None` gives the empty string. |
| RenameFiles.CleanTokenCharwise | rename_files.py:65-70 | Cleaning equals the character-by-character rule: `_` becomes `-`, other safe characters stay, everything else (spaces included) goes. |
| RenameFiles.CleanTokenIdempotent | rename_files.py:65-70 | Cleaning a cleaned token changes nothing. |
| RenameFiles.BuildPrefix | rename_files.py:72-76 | An error exactly when the year-month does not have six digits once non-digits are removed. |
| RenameFiles.BuildPrefixShape | rename_files.py:77-80 | The prefix is the six digits followed by `-token` for each non-empty cleaned token, in order, so it starts with the digits and is safe throughout. |
| RenameFiles.ZeroPadWidth | rename_files.py:82-83 | The width is at least 2 and fits `n`, and it is 2 or the digit count of `n`. |
| RenameFiles.ZeroPadWidthFits | rename_files.py:82-93 | Every ordinal from 1 to `n` pads to exactly that width. |
| RenameFiles.ZeroPadWidthExamples | rename_files.py:82-83 | 7 gives 2; 150 gives 3. |
| RenameFiles.FsTimestamp | rename_files.py:49-53 | The birth time when it is present and non-zero; otherwise the modification time. |
| RenameFiles.SortInstant | rename_files.py:56-63 | The sort date is either the parsed metadata date or the local time of the filesystem timestamp. |
| RenameFiles.SortInstantUsesBestDate | rename_files.py:49-63 | The sort date is the resolved metadata date when it parses. Otherwise it is the local time of the birth time, or of the modification time when the birth time is missing or zero. The tag, empty-value and zero-date guards never decide anything. |
| RenameFiles.ZeroDateUnparseable | rename_files.py:58-59 | A date starting with the zero date never parses. |
| RenameFiles.InsertSorted | rename_files.py:88 | Inserting into a sequence sorted by (key, input position) keeps it sorted. |
| RenameFiles.SortIndicesSorted | rename_files.py:88 | The sort order is strictly increasing by (key, input position): sorted and stable. |
| RenameFiles.SortIndicesPermutes | rename_files.py:88 | The sorted files are a permutation of the files given. |
| RenameFiles.NumberFiles | rename_files.py:89-95 | The numbering loop gives the `k`-th file of the order the name `prefix-<k+1 padded>` plus its lower-cased extension, in order. |
| RenameFiles.PlanNewNames | rename_files.py:85-95 | Sorting and then numbering builds exactly the specified plan. |
| RenameFiles.PlanPermutes | rename_files.py:85-95 | The plan's sources are the input files, each once. |
| RenameFiles.PlanOrdered | rename_files.py:87-88 | The plan runs by ascending (date, lower-cased base name), and entries with equal keys keep their input order. |
| RenameFiles.PlanNumbering | rename_files.py:89-93 | Entry `k` is named `prefix-`, then `k + 1` padded to the common width, then the extension. |
| RenameFiles.PlanNamesDistinct | rename_files.py:89-95 | No two entries of a plan get the same new name. |
| RenameFiles.Folder.Rename | rename_files.py:125 | A rename succeeds exactly when the source exists and is not refused. The file then moves, replacing what was at the destination. |
| RenameFiles.Folder.ApplyPlan | rename_files.py:97-133 | The loop leaves the folder, counters and messages exactly as the fold over the plan specifies. |
| RenameFiles.Step | rename_files.py:106-131 | One pass adds one message naming the entry. It is a duplicate exactly when the name was claimed, and "already exists" exactly when another file sits at the destination. Otherwise it claims the name, and it is renamed exactly when this is no dry run and the source can be moved. `ok` grows by one exactly on a rename and `skipped` exactly on a skip. Only a rename changes the folder. |
| RenameFiles.Run | rename_files.py:106-132 | The loop over the plan adds exactly one message per entry. |
| RenameFiles.RunMessages | rename_files.py:106-131 | One message per entry, in order, naming the entry's source and new name. |
| RenameFiles.RunDry | rename_files.py:121-122 | A dry run renames nothing and counts nothing as renamed. |
| RenameFiles.RunCounts | rename_files.py:114-131 | Outside a dry run, ok + skipped grows by the number of entries. |
| RenameFiles.RunTargets | rename_files.py:113-121 | A name is claimed exactly when it was claimed before or some entry with that name was not skipped as a duplicate or an existing file. |
| RenameFiles.RunCollisions | rename_files.py:113-120 | Entry `k` is a duplicate exactly when its name was claimed before the run or by an earlier entry whose status claims it. It is "already exists" exactly when it is no duplicate and, once the earlier entries are done, another file sits at its destination. |
| RenameFiles.RunCounters | rename_files.py:102-132 | With or without a dry run, `ok` grows by the number of `Renamed` messages and `skipped` by the number of skipped ones (duplicate, already exists, failed rename). |
| RenameFiles.DistinctNamesNoDuplicate | rename_files.py:113-116 | Pairwise distinct, unclaimed names are never skipped as duplicates. |
| RenameFiles.StepKeepsAlreadyNamed | rename_files.py:117-120 | A file already carrying its new name is not skipped as an existing file. |
| RenameFiles.MovedKeepsFiles | rename_files.py:117-126 | A rename the checks let through keeps the same files under as many paths. |
| RenameFiles.RunKeepsFiles | rename_files.py:107-131 | A whole run loses no file and never puts two files on one path. |
| RenameFiles.ApplyDistinctPlan | rename_files.py:97-133 | For a plan with distinct names: one message per entry and none a duplicate. A dry run leaves the folder as it was and has ok = 0; otherwise ok + skipped is the plan's length. No file is lost. |
| RenameFiles.ApplyFreshPlan | rename_files.py:85-133 | A plan built by `plan_new_names` never reports a duplicate in the batch. |

## Findings

| source | as written | input that shows it | evidently intended | confidence | as-written member | corrected member |
|---|---|---|---|---|---|---|
| fix_dates.py:238 | The ExifTool call passes `[EXIFTOOL, "-overwrite_original", ..., path]`: Python's Ellipsis object instead of the `cmd` assembled at 220-235. | Any file with a usable date outside a dry run. `subprocess` raises `TypeError` on the non-text argument, which the `except CalledProcessError` does not catch, so the folder run stops at the first write. | Run the assembled `cmd`, all text, copying the tag into each date field. | high (by reading; not executed) | FixDates.WriteCallAsWrittenRaises | FixDates.WriteCommandLaunches |

The rest of the model (`FixDates.WriteOutcome` and the methods above it) runs the corrected command.

## Left out

- Process plumbing:
  - `read_metadata` (ExifTool's JSON), `_find_exe`, `_subproc_env` and `_mac_stat_times` are not modelled.
  - Their results are parameters: the metadata map, whether each tool is installed, each run's exit status and output, and the filesystem times.
- `os.walk` and `os.listdir` are not modelled; the listing they produce is a parameter.
- The `os.stat` call at fix_dates.py:217 is not modelled, because its result is never used.
- Byte values in `_to_text` are not modelled: bytes are taken as already decoded, without the UTF-8 then Latin-1 fallback.
- Floats, booleans and nested objects in ExifTool's JSON are not modelled; a value is `None`, text or an integer.
- An empty list value, for which `v[0]` raises `IndexError`, is not modelled: a list has at least one item by construction.
- `str.lower` and `\d` are modelled on ASCII only. Non-ASCII case mappings and non-ASCII digits are not modelled.
- Message wording is not modelled: messages are datatypes carrying the file, value, tag and status, not the formatted text.
- Exceptions other than the ones the code handles are not modelled: `build_prefix`'s `ValueError` is a `Failure`, and the missing-ExifTool `RuntimeError` is `ExifToolNotFound`.
- Time-zone handling of `datetime.fromtimestamp` is not modelled; local-time conversion is the parameter `local`.
- Timestamps are microseconds as integers rather than floats.
- Symbolic links, case-insensitive filesystems and directories at a destination path are not modelled. Paths name files one to one, so `os.path.abspath` equality is path equality.
- Which renames the operating system refuses is not modelled; it is the parameter `refused`.
- `apply_plan`'s `folder` parameter is not modelled, because it is never used.
- `_read_tags` (fix_dates.py:134-156) is not modelled: it is unused, and the argument list it builds is never passed on.
- The first `best_datetime_for_sort` and `_parse_dt` (rename_files.py:14-33) are not modelled, because the later definition shadows them.
- `list_media` (rename_files.py:34-47) is not modelled. It applies the same extension filter as `FixDates.IterFiles`.
- `has_exiftool` and `has_setfile` are not modelled; they are boolean parameters.
- Python's `sorted` is not modelled as written; it is modelled as an insertion sort of indices by (key, input position). That yields the same order as any stable sort.
- The Tk interface (gui_phototools.py) and the PIL/numpy pixel scripts are not modelled, since they are outside these two scripts.
