/**
 * `download_from_DAP_links` up to the downloads: the parse loop with its
 * mutable current URL and map, the optional key filter, and the local
 * path each surviving entry is written to.
 */
module Downloader {
  import opened Wrappers
  import opened Text
  import opened Paths
  import opened Manifest

  /**
   * The key filter `{k: d for k, d in items.items() if re.search(fltr, k)}`,
   * with the regex search given as a predicate on keys; no filter keeps
   * the map as it is. The result is exactly the sub-map of matching keys.
   */
  function Filter(items: map<string, Item>, matches: Option<string -> bool>): (r: map<string, Item>)
    ensures matches.None? ==> r == items
    ensures matches.Some? ==> forall k :: k in r <==> k in items && matches.value(k)
    ensures forall k :: k in r ==> k in items && r[k] == items[k]
  {
    match matches
    case None => items
    case Some(m) => map k | k in items && m(k) :: items[k]
  }

  /** A pattern that matches no key leaves nothing to download. */
  lemma FilterNoMatch(items: map<string, Item>, m: string -> bool)
    requires forall k :: k in items ==> !m(k)
    ensures Filter(items, Some(m)) == map[]
  {
  }

  /** Filtering twice with the same pattern is filtering once. */
  lemma FilterIdempotent(items: map<string, Item>, matches: Option<string -> bool>)
    ensures Filter(Filter(items, matches), matches) == Filter(items, matches)
  {
  }

  /** The map the function hands to its download loop, or the error the parse raised. */
  function Collected(lines: seq<string>, cfg: Config, matches: Option<string -> bool>): Result<map<string, Item>, Error> {
    match Parse(lines, Derivation(cfg))
    case Failure(e) => Failure(e)
    case Success(st) => Success(Filter(st.items, matches))
  }

  /**
   * The body of the loop for a hint line (lines 55-79): the key parts and
   * the directory parts, each with its own collapse, then the entry.
   */
  method HintEntry(url: string, line: string, cfg: Config, n: nat) returns (r: Result<(string, Item), Error>)
    ensures r == EntryFor(url, line, cfg, n)
  {
    var parts := UrlParts(url);
    if |parts| < 3 {
      return Failure(PathTooShort(n));
    }
    var keyParts := parts[3..];
    if cfg.collapseData || cfg.collapseMetadata {
      if keyParts == [] {
        return Failure(PathTooShort(n));
      }
      if Collapses(keyParts[0], cfg) {
        keyParts := keyParts[1..];
      }
    }
    var dirParts := HintParts(line);
    if Collapses(dirParts[0], cfg) {
      dirParts := dirParts[1..];
    }
    if keyParts == [] {
      return Failure(EmptyKey(n));
    }
    assert |parts| > 3 && keyParts == Collapse(parts[3..], cfg);
    assert dirParts == Collapse(HintParts(line), cfg);
    var item := Item(url, Sanitize(parts[|parts| - 1]),
                     if dirParts != [] then Some(Sanitize(OsPathJoin(dirParts))) else None);
    assert item.dir == DirOf(line, cfg);
    r := Success((Sanitize(OsPathJoin(keyParts)), item));
  }

  /**
   * One pass of the loop body (lines 50-79): a comment changes nothing, a
   * URL line becomes the current URL, a hint line writes one entry.
   */
  method NextState(st: State, line: string, n: nat, cfg: Config) returns (r: Result<State, Error>)
    ensures r == Step(st, line, n, Derivation(cfg))
  {
    if StartsWith(line, "#") {
      r := Success(st);
    } else if StartsWith(line, "https") {
      r := Success(State(Some(line), st.items));
    } else if st.url.None? {
      r := Failure(NoCurrentUrl(n));
    } else {
      var entry := HintEntry(st.url.value, line, cfg, n);
      if entry.Failure? {
        r := Failure(entry.error);
      } else {
        r := Success(State(st.url, st.items[entry.value.0 := entry.value.1]));
      }
    }
  }

  /**
   * Lines 48-81 of `download_from_DAP_links`: one pass over the manifest
   * lines carrying the current URL and the map from line to line, then
   * the optional filter.
   */
  method CollectItems(lines: seq<string>, cfg: Config, matches: Option<string -> bool>)
    returns (r: Result<map<string, Item>, Error>)
    ensures r == Collected(lines, cfg, matches)
  {
    ghost var derive := Derivation(cfg);
    var url: Option<string> := None;
    var items: map<string, Item> := map[];
    var i := 0;
    while i < |lines|
      invariant i <= |lines|
      invariant Parse(lines[..i], derive) == Success(State(url, items))
    {
      ParseSnoc(lines[..i], lines[i], derive);
      assert lines[..i] + [lines[i]] == lines[..i + 1];
      var next := NextState(State(url, items), lines[i], i, cfg);
      if next.Failure? {
        ParseErrorPersists(lines, i + 1, derive);
        return Failure(next.error);
      }
      url, items := next.value.url, next.value.items;
      i := i + 1;
    }
    assert lines[..i] == lines;
    r := Success(Filter(items, matches));
  }

  /** The local root: `Path(output_dir)`, with `"./"` when no directory is given. */
  function OutputRoot(outputDir: Option<string>): seq<string> {
    PathParts(if outputDir.None? then "./" else outputDir.value)
  }

  /** The default root `./` has no parts: targets are relative to the working directory. */
  lemma DefaultRoot()
    ensures OutputRoot(None) == []
  {
    assert "./"[1..] == "/";
    assert "/"[1..] == "";
    assert Split("/") == ["", ""];
    assert ['.'] + "" == ".";
    assert Split("./") == [["."[0]] + Split("/")[0]] + Split("/")[1..];
  }

  /** Why computing a target raises. */
  datatype TargetError = DirIsNone  // `Path(None)` raises a TypeError

  /**
   * Line 85 as written: `output_dir / Path(d["dir"]) / d["name"]`, as
   * path parts. An entry whose "dir" is None makes `Path(None)` raise.
   */
  function TargetAsWritten(root: seq<string>, item: Item): (r: Result<seq<string>, TargetError>)
    ensures r.Failure? <==> item.dir.None?
  {
    if item.dir.None? then Failure(DirIsNone)
    else Success(PathJoin(PathJoin(root, PathParts(item.dir.value)), PathParts(item.name)))
  }

  /**
   * Line 85 as evidently intended: an entry without a subdirectory goes
   * directly under the output root.
   */
  function Target(root: seq<string>, item: Item): (r: seq<string>)
    ensures item.dir.Some? ==> TargetAsWritten(root, item) == Success(r)
    ensures item.dir.None? ==> r == PathJoin(root, PathParts(item.name))
  {
    var dirParts := if item.dir.None? then [] else PathParts(item.dir.value);
    PathJoin(PathJoin(root, dirParts), PathParts(item.name))
  }

  /**
   * An entry is written under the output root, below its directory's
   * parts, as a file named by its "name" (when that name is a path
   * component), provided "dir" is not an absolute path.
   */
  lemma TargetUnderRoot(root: seq<string>, item: Item)
    requires '/' !in item.name
    requires item.dir.None? || !StartsWith(item.dir.value, "/")
    ensures var dirParts := if item.dir.None? then [] else PathParts(item.dir.value);
      Target(root, item) == root + dirParts + (if IsName(item.name) then [item.name] else [])
  {
    PathPartsName(item.name);
  }

  /** An absolute "dir" discards the output root. */
  lemma TargetAbsoluteDir(root: seq<string>, item: Item)
    requires '/' !in item.name
    requires item.dir.Some? && StartsWith(item.dir.value, "/")
    ensures Target(root, item) == PathParts(item.dir.value) + (if IsName(item.name) then [item.name] else [])
  {
    PathPartsName(item.name);
  }

  /** The name of an entry never holds a separator. */
  lemma EntryNameNoSlash(url: string, hint: string, cfg: Config, n: nat)
    requires EntryFor(url, hint, cfg, n).Success?
    ensures '/' !in EntryFor(url, hint, cfg, n).value.1.name
  {
    var parts := UrlParts(url);
    PathPartsNames(UrlPath(url));
    assert IsName(parts[|parts| - 1]);
    SanitizeChars(parts[|parts| - 1]);
  }

  /**
   * A hint naming a collapsed folder itself, such as `dir=/data` with
   * `collapse_data`, leaves "dir" None, so line 85 as written raises;
   * the intended target puts the file directly under the output root.
   */
  lemma FolderHintCrashes(url: string, folder: string, cfg: Config, n: nat, root: seq<string>)
    requires Collapses(folder, cfg)
    requires EntryFor(url, "dir=/" + folder, cfg, n).Success?
    ensures var item := EntryFor(url, "dir=/" + folder, cfg, n).value.1;
      item.dir == None && TargetAsWritten(root, item) == Failure(DirIsNone)
      && Target(root, item) == root + (if IsName(item.name) then [item.name] else [])
  {
    FolderHintDir(folder, cfg);
    NoDirTarget(url, "dir=/" + folder, cfg, n, root);
  }

  /** An entry whose hint leaves no directory fails at line 85 as written and lands at the root when corrected. */
  lemma NoDirTarget(url: string, hint: string, cfg: Config, n: nat, root: seq<string>)
    requires DirOf(hint, cfg) == None
    requires EntryFor(url, hint, cfg, n).Success?
    ensures var item := EntryFor(url, hint, cfg, n).value.1;
      item.dir == None && TargetAsWritten(root, item) == Failure(DirIsNone)
      && Target(root, item) == root + (if IsName(item.name) then [item.name] else [])
  {
    var item := EntryFor(url, hint, cfg, n).value.1;
    EntryNameNoSlash(url, hint, cfg, n);
    TargetUnderRoot(root, item);
  }

  /** `dir=/data` or `dir=/metadata`, when that folder is collapsed, leaves no directory. */
  lemma FolderHintDir(folder: string, cfg: Config)
    requires Collapses(folder, cfg)
    ensures DirOf("dir=/" + folder, cfg) == None
  {
    var p := "/" + folder;
    assert p[|p| - 1] == 'a';
    if folder == "data" {
      assert 'i' !in p;
    } else {
      assert 'i' !in p;
    }
    MissingChar(p, "dir=", 'i');
    assert Intercalate([folder]) == folder;
    AbsoluteHint([folder]);
    assert Collapse([folder], cfg) == [];
  }

  /**
   * A hint with no separator after `dir=`, such as `dir=` or `dir=docs`,
   * gives "dir" "": `Path(dirpath).parts[1:]` drops a relative path's
   * only segment, so the file is written directly under the output root.
   */
  lemma SegmentHintAtRoot(url: string, d: string, cfg: Config, n: nat, root: seq<string>)
    requires HintSegment(d)
    requires EntryFor(url, "dir=" + d, cfg, n).Success?
    ensures var item := EntryFor(url, "dir=" + d, cfg, n).value.1;
      item.dir == Some("")
      && Target(root, item) == root + (if IsName(item.name) then [item.name] else [])
  {
    var item := EntryFor(url, "dir=" + d, cfg, n).value.1;
    SegmentHintDir(d, cfg);
    EntryNameNoSlash(url, "dir=" + d, cfg, n);
    EmptyPath();
    TargetUnderRoot(root, item);
  }

  lemma EmptyPath()
    ensures PathParts("") == []
  {
    assert Split("") == [""];
  }

  /** Nothing, or one path segment that strip and the `dir=` removal leave alone. */
  predicate HintSegment(d: string) {
    d == "" || (IsName(d) && !IsSpace(d[0]) && !IsSpace(d[|d| - 1]) && !Contains(d, "dir="))
  }

  lemma SegmentHintDir(d: string, cfg: Config)
    requires HintSegment(d)
    ensures DirOf("dir=" + d, cfg) == Some("")
  {
    SegmentHintParts(d);
    EmptyPartsDir("dir=" + d, cfg);
  }

  lemma SegmentHintParts(d: string)
    requires HintSegment(d)
    ensures HintParts("dir=" + d) == [""]
  {
    if d == "" {
      assert "dir=" + d == "dir=";
      EmptyHint();
    } else {
      assert Intercalate([d]) == d;
      RelativeHint([d]);
    }
  }

  /** A hint whose only part is empty gives "dir" "". */
  lemma EmptyPartsDir(hint: string, cfg: Config)
    requires HintParts(hint) == [""]
    ensures DirOf(hint, cfg) == Some("")
  {
    assert Collapse([""], cfg) == [""];
    assert OsPathJoin([""]) == "";
    assert Sanitize("") == "";
  }

  /**
   * Sanitising after joining can make "dir" absolute: the hint
   * `dir=/ /etc` gives "dir" `/etc`, and the file is then written under
   * `/etc` whatever the output root. Here `x` stands for `etc`.
   */
  lemma HintEscapesRoot(url: string, x: string, cfg: Config, n: nat, root: seq<string>)
    requires PlainName(x)
    requires EntryFor(url, "dir=/ /" + x, cfg, n).Success?
    ensures var item := EntryFor(url, "dir=/ /" + x, cfg, n).value.1;
      item.dir == Some("/" + x)
      && Target(root, item) == ["/", x] + (if IsName(item.name) then [item.name] else [])
  {
    var item := EntryFor(url, "dir=/ /" + x, cfg, n).value.1;
    EscapingHintDir(x, cfg);
    EntryNameNoSlash(url, "dir=/ /" + x, cfg, n);
    TargetAbsoluteDir(root, item);
    RootedName(x);
  }

  lemma RootedName(x: string)
    requires IsName(x)
    ensures PathParts("/" + x) == ["/", x]
  {
    assert Intercalate([x]) == x;
    PathPartsAbsolute([x]);
  }

  /** A clean name without `=` that does not end in whitespace. */
  predicate PlainName(x: string) {
    Clean(x) && '=' !in x && !IsSpace(x[|x| - 1])
  }

  /** The hint `dir=/ /x` gives the directory `/x`. */
  lemma EscapingHintDir(x: string, cfg: Config)
    requires PlainName(x)
    ensures DirOf("dir=/ /" + x, cfg) == Some("/" + x)
  {
    EscapingHintParts(x);
    DirOfNames("dir=/ /" + x, cfg);
    EscapedDir(x);
  }

  /** A hint whose parts are names, the first not collapsed, keeps all of them in "dir". */
  lemma DirOfNames(hint: string, cfg: Config)
    requires !Collapses(HintParts(hint)[0], cfg)
    requires forall i :: 0 <= i < |HintParts(hint)| ==> IsName(HintParts(hint)[i])
    ensures DirOf(hint, cfg) == Some(Sanitize(Intercalate(HintParts(hint))))
  {
    OsPathJoinNames(HintParts(hint));
  }

  lemma EscapingHintParts(x: string)
    requires PlainName(x)
    ensures HintParts("dir=/ /" + x) == [" ", x]
    ensures Intercalate([" ", x]) == " /" + x
  {
    EscapingPath(x);
    AbsoluteHint([" ", x]);
    EscapingConcat(x);
  }

  lemma EscapingPath(x: string)
    requires PlainName(x)
    ensures Intercalate([" ", x]) == " /" + x
    ensures var p := "/" + Intercalate([" ", x]); !IsSpace(p[|p| - 1]) && !Contains(p, "dir=")
  {
    assert Intercalate([" ", x]) == " /" + x;
    var p := "/" + (" /" + x);
    assert p[|p| - 1] == x[|x| - 1];
    assert '=' !in p;
    MissingChar(p, "dir=", '=');
  }

  lemma EscapingConcat(x: string)
    ensures "dir=/" + (" /" + x) == "dir=/ /" + x
  {
    assert "dir=/" + " /" == "dir=/ /";
    assert "dir=/" + (" /" + x) == ("dir=/" + " /") + x;
  }

  /** `" /x".replace(" ", "").replace("%20", "")` is `/x` for a clean `x`. */
  lemma EscapedDir(x: string)
    requires Clean(x)
    ensures Sanitize(" /" + x) == "/" + x
  {
    var s := " /" + x;
    assert s[..1] == " " && s[1..] == "/" + x;
    ContainsChar("/" + x, ' ');
    assert RemoveAll(s, " ") == "/" + x;
    assert ("/" + x)[1..] == x;
    assert !Contains("/" + x, "%20");
  }
}
