# DAP manifest parser

A Dafny model of `download_from_DAP_links` in `data/dap.py`. The function
reads a manifest of file links to a DAP (data access portal) archive and
downloads each file. Every line of the manifest has one of three kinds:

- a comment, which starts with `#`;
- a URL line, which starts with `https` and becomes the current URL;
- any other line, called a directory hint (usually `dir=<path>`), which
  writes one entry for the current URL into a dictionary.

Each entry is stored under a key taken from the URL path: the parts after
`/`, the service and the project id, with a leading `data` or `metadata`
folder optionally collapsed. The entry holds:

- `url`, the current URL verbatim;
- `name`, the last URL path part;
- `dir`, derived from the hint.

`name`, `dir` and the key are sanitised by removing spaces and `%20`. An
optional pattern then filters the keys. Finally, each surviving entry is
downloaded to `output_dir / dir / name`.

The project has five files:

- `Wrappers.dfy`: `Option` and `Result`.
- `Text.dfy`: the Python string operations that are used.
  - `str.startswith`;
  - `str.strip`, with Python's whitespace set;
  - `str.replace(p, "")`, which scans left to right without overlaps;
  - the sanitisation.
- `Paths.dfy`: the path and URL handling, for POSIX.
  - `str.split("/")`;
  - `PurePosixPath(p).parts`;
  - `os.path.join`;
  - the `/` operator on paths;
  - the path component of `urlparse`.
- `Manifest.dfy`: the parser itself.
  - the line classification;
  - the collapse rule;
  - how a key and an entry are derived from a hint line and its URL (`EntryFor`);
  - the line-by-line fold `Parse`.

  The fold is stated for any derivation function of the same type, so the
  lemmas about it do not depend on the text processing.
- `Downloader.dfy`: the imperative part, plus what comes after the parse.
  - The parse loop as methods: `CollectItems`, `NextState` and
    `HintEntry`, with the mutable current URL and map. Each method is
    proved equal to the fold or to the derivation.
  - The key filter.
  - The target path at line 85.

What the code does differs from a plain reading of its intent in three
places. The model follows the code in each case:

- **A relative hint loses its only segment.** `Path(dirpath).parts[1:]` drops
  the first part whether or not it is the root `/`. A hint `dir=docs`
  therefore gives `dir` `""`, and the file lands directly in the output
  directory, not in `docs/` (`Downloader.SegmentHintAtRoot`). Only absolute
  hints such as `dir=/docs` keep their segments (`Manifest.AbsoluteHint`).
- **The sanitisation is not idempotent.** Removing one `%20` can join a
  new one: `%%2020` becomes `%20`, and then `""`
  (`Text.SanitizeNotIdempotent`).
- **The entry count is a bound, not an equality.** The map has at most one
  key per hint line, and exactly one per hint line only when no two hint
  lines write the same key (`Manifest.KeysAtMostHints`,
  `Manifest.DistinctKeysCount`).

## Model

| member | source | states |
|---|---|---|
| Text.Sanitize | data/dap.py:73-76 | the result of `.replace(" ", "").replace("%20", "")` holds no space and is no longer than the input; text without a space or `%20` is returned unchanged |
| Text.SanitizeChars | data/dap.py:73-76 | sanitising adds no character |
| Text.SanitizeNotIdempotent | data/dap.py:73-76 | sanitising `%%2020` gives `%20`, and sanitising that again gives `""`, so the sanitisation is not idempotent |
| Text.RemoveAll | data/dap.py:55 | `s.replace(p, "")` is never longer than `s`, and returns `s` unchanged when `p` does not occur in it |
| Text.RemoveAllChars | data/dap.py:73 | `replace(p, "")` adds no character; for a one-character pattern, a character survives exactly when it is in the input and differs from the pattern |
| Text.Strip | data/dap.py:55 | `strip()` returns the piece of the input that begins where the left strip stops, with no whitespace at either end |
| Text.LStrip | data/dap.py:55 | `lstrip()` returns a suffix of the input that does not start with whitespace |
| Text.RStrip | data/dap.py:55 | `rstrip()` returns a prefix of the input that does not end with whitespace |
| Text.StripExact | data/dap.py:55 | `strip()` of whitespace, then a core with non-whitespace ends, then whitespace, is exactly that core |
| Text.LStripDropsSpaces | data/dap.py:55 | everything the left strip drops is whitespace |
| Text.RStripDropsSpaces | data/dap.py:55 | everything the right strip drops is whitespace |
| Text.ContainsChar | data/dap.py:73 | a one-character pattern occurs in a string exactly when that character does |
| Text.MissingChar | data/dap.py:55 | a pattern with a character the string lacks does not occur in it |
| Paths.IntercalateSplit | data/dap.py:57 | joining the pieces of `s.split("/")` with `/` gives `s` back |
| Paths.SplitIntercalate | data/dap.py:57 | splitting a `/`-join of separator-free pieces gives the pieces back |
| Paths.NamedShape | data/dap.py:57 | pathlib keeps only proper names, dropping empty pieces and `.`, and keeps names unchanged |
| Paths.PathParts | data/dap.py:57 | `Path(p).parts` starts with the root `/` exactly when `p` starts with `/` |
| Paths.PathPartsNames | data/dap.py:57 | every part after the root is a proper name |
| Paths.PathPartsAbsolute | data/dap.py:57 | the parts of `/` joined with names are the root followed by those names |
| Paths.PathPartsRelative | data/dap.py:66 | the parts of a relative join of names are those names, with no root |
| Paths.PathPartsName | data/dap.py:85 | a separator-free string is one part, or no part when it is `""` or `.` |
| Paths.OsPathJoin | data/dap.py:73-76 | `os.path.join` of one piece is that piece, and an absolute last piece discards everything before it |
| Paths.OsPathJoinNames | data/dap.py:73-76 | `os.path.join` on proper names is their `/`-join |
| Paths.OsPathJoinEnds | data/dap.py:73-76 | `os.path.join` always ends with its last piece |
| Paths.PathJoinParts | data/dap.py:85 | pathlib's `a / b` on parts agrees with joining the raw paths: an absolute `b` replaces `a`, and otherwise the parts of `a` are followed by those of `b`, exactly the parts of the `os.path.join` step of `a` and `b` |
| Paths.UrlPath | data/dap.py:56 | `urlparse(url).path` holds no `?` and no `#`, and is no longer than the URL |
| Paths.UrlPathOf | data/dap.py:56 | for `https://host/path` followed by a query or fragment, `urlparse(...).path` is exactly `/path` |
| Manifest.Classify | data/dap.py:50-54 | a line is a comment exactly when it starts with `#`, and a hint exactly when it starts with neither `#` nor `https`, so `#https…` is a comment |
| Manifest.HintPath | data/dap.py:55 | `line.strip().replace("dir=", "")` is no longer than the line, and is the stripped line itself when that holds no `dir=` |
| Manifest.Collapse | data/dap.py:61-72 | the collapse returns a suffix that is at most one part shorter, and it is shorter exactly when the first part is a collapsed `data`/`metadata` folder |
| Manifest.HintParts | data/dap.py:66-68 | the directory parts are never empty: an empty result becomes `[""]` |
| Manifest.DirOf | data/dap.py:66-78 | `dir` is None exactly when the hint had a single part and the collapse removed it; a `dir` that is present holds no space |
| Manifest.HintPathPlain | data/dap.py:55 | `dir=p` with a path `p` that has no surrounding whitespace and no further `dir=` gives `p` |
| Manifest.EmptyHint | data/dap.py:55-68 | the hint `dir=` has the single part `""` |
| Manifest.AbsoluteHint | data/dap.py:55-66 | an absolute hint `dir=/a/b…` keeps all its segments |
| Manifest.RelativeHint | data/dap.py:55-68 | a relative hint `dir=a/b…` loses its first segment, and a single segment leaves `[""]` |
| Manifest.EntryFor | data/dap.py:55-79 | a hint line fails exactly when the URL path has fewer than four parts, or has four and the collapse removes the last; the error is PathTooShort (an `IndexError`) when the path has fewer than three parts, or exactly three with a collapse switch on so that `keyparts[0]` is read, and EmptyKey (the `TypeError` of `os.path.join()`) otherwise; on success the key and name hold no space, the url is verbatim, the name is the sanitised last URL path part and ignores the hint, and `dir` depends on the hint alone |
| Manifest.ArchiveUrlParts | data/dap.py:56-57 | the path parts of `https://host/n1/…/nk` followed by a query or fragment are the root and `n1…nk`, for any segments that are names without `?` or `#`, `%20` and spaces included |
| Manifest.ArchiveKey | data/dap.py:56-75 | for an archive URL `https://host/service/project/rest…` with such segments, the key is the sanitised `/`-join of `rest` minus one collapsed leading folder, and the name is the sanitised last part of `rest` |
| Manifest.EntryOfParts | data/dap.py:57-75 | for any URL whose path parts are the root and names, the key is the sanitised join of the parts after the project id minus one collapsed folder, and the name is the sanitised last part |
| Manifest.CleanArchiveKey | data/dap.py:57-75 | when no segment holds a space or `%20`, the sanitisation changes nothing: the key is the plain join and the name the last segment |
| Manifest.CleanPath | data/dap.py:73 | a join of clean segments is left unchanged by the sanitisation |
| Manifest.Step | data/dap.py:50-79 | only a hint line can raise; a comment or URL line leaves the map as it is; a URL line becomes the current URL and every other line keeps it |
| Manifest.Parse | data/dap.py:48-79 | an empty manifest gives no URL and an empty map, and a manifest without hint lines never raises |
| Manifest.LineEffect | data/dap.py:50-73 | a comment (the `#` test comes first) changes nothing; a URL line replaces the current URL and leaves the map alone; a hint line keeps the URL and writes exactly one entry under the key its current URL gives, or raises |
| Manifest.ParseUrl | data/dap.py:52-53 | the URL the loop carries is the most recent URL line |
| Manifest.ParseErrorPersists | data/dap.py:49-79 | an error raised on the first n lines is the error of the whole manifest |
| Manifest.ParseSucceedsIff | data/dap.py:49-79 | the parse succeeds exactly when every hint line succeeds, judged from the lines before it |
| Manifest.NoUrlFails | data/dap.py:52-56 | a hint line with no URL line before it makes the parse fail |
| Manifest.LastWriteWins | data/dap.py:73-79 | the entry a hint line writes is in the final map when no later hint line writes the same key |
| Manifest.KeysFromHints | data/dap.py:73-79 | every key in the final map was written, with its final entry, by some hint line, and no later line wrote that key |
| Manifest.KeysAtMostHints | data/dap.py:73 | the map has at most one key per hint line |
| Manifest.DistinctKeysCount | data/dap.py:73 | when no two hint lines write the same key, the map has exactly one key per hint line |
| Downloader.Filter | data/dap.py:80-81 | with no pattern the map is unchanged; with a pattern the result is exactly the entries whose key matches, with their values unchanged |
| Downloader.FilterNoMatch | data/dap.py:80-81 | a pattern that matches no key leaves an empty map |
| Downloader.FilterIdempotent | data/dap.py:80-81 | filtering twice with the same pattern is the same as filtering once |
| Downloader.HintEntry | data/dap.py:55-79 | the loop body for a hint line computes exactly the key and entry of `EntryFor`, or its error |
| Downloader.NextState | data/dap.py:50-79 | one pass of the loop body is one step of the fold |
| Downloader.CollectItems | data/dap.py:48-81 | the loop over the manifest lines followed by the filter yields the filtered result of the fold, or the first error it raises |
| Downloader.DefaultRoot | data/dap.py:44-46 | without `output_dir` the root `./` has no parts, so targets are relative to the working directory |
| Downloader.TargetAsWritten | data/dap.py:85 | `output_dir / Path(d["dir"]) / d["name"]` raises exactly when `dir` is None |
| Downloader.Target | data/dap.py:85 | the corrected target equals the one as written whenever `dir` is present; with no `dir`, the name goes directly under the root |
| Downloader.TargetUnderRoot | data/dap.py:85 | when `dir` is not absolute, the target is the output root, then the parts of `dir`, then the name |
| Downloader.TargetAbsoluteDir | data/dap.py:85 | an absolute `dir` discards the output root |
| Downloader.EntryNameNoSlash | data/dap.py:57-75 | the name of an entry never holds a `/` |
| Downloader.FolderHintCrashes | data/dap.py:66-85 | a hint naming a collapsed folder, such as `dir=/data` with `collapse_data`, gives `dir` None, so the code as written raises; the corrected target puts the file directly under the root |
| Downloader.SegmentHintAtRoot | data/dap.py:55-85 | a hint `dir=` or `dir=docs` gives `dir` `""`, and the file is written directly under the output root |
| Downloader.HintEscapesRoot | data/dap.py:66-85 | the hint `dir=/ /etc` gives `dir` `/etc`, because spaces are removed after the join, and the file is then written under `/etc` whatever the output root |

## Left out

- Reading the manifest file (lines 41-42) and `data.splitlines()` (line 49): the model takes the lines as a sequence of strings.
- The downloads (lines 83-96): `urlopen`, `mkdir`, the file write, the `tqdm` progress bar and the `d["path"] = tgt` update are I/O. Only the target path at line 85 is modelled, as a function on path parts.
- The regex engine behind `re.search` (line 81): it is a parameter, a total predicate on keys. An invalid pattern, which raises in Python, is not modelled.
- `Paths.UrlPath`: only the `https:` scheme is recognised. The model finds the authority after `//` up to the first `/`, `?` or `#`, and the path up to the first `?` or `#`. `;params` and the tab and newline removal of `urlparse` are not modelled. Nor are its `ValueError`s: an authority with an unbalanced `[` or `]` raises one, and so does an authority whose NFKC normalisation brings in a `/`, `?`, `#`, `@` or `:`. The model returns a path in those cases.
- `Paths.PathParts`: a path that starts with exactly two slashes keeps `//` as its root in pathlib; the model gives it the root `/`.
- Dictionary order: the map of entries is a Dafny `map`, so the insertion order of the dictionary, and the order in which files are downloaded, is not modelled.
- Windows path rules: only `PurePosixPath` and `posixpath.join` are modelled.
- `output_dir` given as a `Path` object: the model takes it as a string.
- The exceptions are modelled as error values. `PathTooShort` stands for the `IndexError` of `parts[2]` on a path of fewer than three parts, or of `keyparts[0]` on a path of exactly three parts when a collapse switch is on. With both switches off the short-circuiting `and` tests never read `keyparts[0]`, so a three-part path instead reaches `os.path.join()` with no argument. That `TypeError`, and the one for a key emptied by the collapse, is `EmptyKey`. `NoCurrentUrl` stands for the unbound `url`.

## Findings

| source | as written | input that shows it | evidently intended | confidence | as-written member | corrected member |
|---|---|---|---|---|---|---|
| data/dap.py:76-85 | `dir` is set to None when the collapse leaves no directory part, and line 85 then calls `Path(None)`, which raises a `TypeError` | with `collapse_data` set, a URL line `https://host/dapprd/ID1v1/data/x.csv` followed by the hint `dir=/data` | an entry without a directory is written directly under the output directory | medium, not executed | Downloader.TargetAsWritten (failure shown by Downloader.FolderHintCrashes) | Downloader.Target (placement shown by Downloader.TargetUnderRoot and Downloader.FolderHintCrashes) |
