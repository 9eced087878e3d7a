/**
 * The manifest parser of `download_from_DAP_links`: how a line is
 * classified, how the key, name and directory of an entry are derived
 * from the current URL and a hint line, and the line-by-line fold that
 * builds the key -> entry map, with what that fold guarantees.
 */
module Manifest {
  import opened Wrappers
  import opened Text
  import opened Paths

  /** The `collapse_data` and `collapse_metadata` switches. */
  datatype Config = Config(collapseData: bool, collapseMetadata: bool)

  /** One value of the parser's map: the dict with keys "url", "name" and "dir". */
  datatype Item = Item(url: string, name: string, dir: Option<string>)

  /** Why parsing stops, with the 0-based index of the line that raised. */
  datatype Error =
    | NoCurrentUrl(line: nat)  // a hint line before any URL line: `url` is unbound
    | PathTooShort(line: nat)  // the IndexError of `parts[2]`, or of `keyparts[0]` read by a switched-on collapse test
    | EmptyKey(line: nat)      // no key part is left: the TypeError of `os.path.join()` with no argument

  datatype LineKind = Comment | UrlLine | Hint

  /** The `#` test comes first, so `#https…` is a comment. */
  function Classify(line: string): (r: LineKind)
    ensures r == Comment <==> StartsWith(line, "#")
    ensures r == Hint <==> !StartsWith(line, "#") && !StartsWith(line, "https")
  {
    if StartsWith(line, "#") then Comment
    else if StartsWith(line, "https") then UrlLine
    else Hint
  }

  /** Whether a leading segment is one of the folders the switches collapse. */
  predicate Collapses(seg: string, cfg: Config) {
    (cfg.collapseData && seg == "data") || (cfg.collapseMetadata && seg == "metadata")
  }

  /**
   * The leading-folder collapse: the result is a suffix of the parts that
   * is one shorter exactly when the first part is a collapsed folder, so
   * it never drops more than one part.
   */
  function Collapse(parts: seq<string>, cfg: Config): (r: seq<string>)
    requires |parts| > 0
    ensures |parts| - 1 <= |r| <= |parts|
    ensures r == parts[|parts| - |r|..]
    ensures |r| < |parts| <==> Collapses(parts[0], cfg)
  {
    if Collapses(parts[0], cfg) then parts[1..] else parts
  }

  /** `Path(urlparse(url).path).parts` */
  function UrlParts(url: string): seq<string> {
    PathParts(UrlPath(url))
  }

  /** `line.strip().replace("dir=", "")` */
  function HintPath(hint: string): (r: string)
    ensures |r| <= |hint|
    ensures !Contains(Strip(hint), "dir=") ==> r == Strip(hint)
  {
    RemoveAll(Strip(hint), "dir=")
  }

  /** `Path(dirpath).parts[1:]`, replaced by `[""]` when empty. */
  function HintParts(hint: string): (r: seq<string>)
    ensures |r| > 0
  {
    var parts := PathParts(HintPath(hint));
    if |parts| <= 1 then [""] else parts[1..]
  }

  /**
   * The "dir" of an entry. It is None exactly when the hint held a single
   * segment that the collapse removed; otherwise it is the sanitised join
   * of the remaining parts, possibly "", and holds no space.
   */
  function DirOf(hint: string, cfg: Config): (r: Option<string>)
    ensures r == None <==> |HintParts(hint)| == 1 && Collapses(HintParts(hint)[0], cfg)
    ensures r.Some? ==> ' ' !in r.value
  {
    var parts := Collapse(HintParts(hint), cfg);
    if parts == [] then None else Some(Sanitize(OsPathJoin(parts)))
  }

  /** A hint `dir=<p>` whose path has no surrounding whitespace and no further `dir=` gives `p` itself. */
  lemma HintPathPlain(p: string)
    requires p != [] ==> !IsSpace(p[0]) && !IsSpace(p[|p| - 1])
    requires !Contains(p, "dir=")
    ensures HintPath("dir=" + p) == p
  {
    HintStripped(p);
    PrefixRemoved(p);
  }

  lemma PrefixRemoved(p: string)
    requires !Contains(p, "dir=")
    ensures RemoveAll("dir=" + p, "dir=") == p
  {
    var h := "dir=" + p;
    assert h[..4] == "dir=" && h[4..] == p;
    assert RemoveAll(h, "dir=") == RemoveAll(p, "dir=");
  }

  lemma HintStripped(p: string)
    requires p != [] ==> !IsSpace(p[0]) && !IsSpace(p[|p| - 1])
    ensures Strip("dir=" + p) == "dir=" + p
  {
    var h := "dir=" + p;
    assert h[0] == 'd';
    if p != [] {
      assert h[|h| - 1] == p[|p| - 1];
    }
    assert "" + h + "" == h;
    StripExact("", h, "");
  }

  /** An empty hint `dir=` has the one empty part. */
  lemma EmptyHint()
    ensures HintParts("dir=") == [""]
  {
    assert "dir=" == "dir=" + "";
    HintPathPlain("");
    assert Split("") == [""];
  }

  /** An absolute hint `dir=/a/b…` keeps all its segments. */
  lemma AbsoluteHint(names: seq<string>)
    requires |names| > 0
    requires forall i :: 0 <= i < |names| ==> IsName(names[i])
    requires var p := "/" + Intercalate(names); !IsSpace(p[|p| - 1]) && !Contains(p, "dir=")
    ensures HintParts("dir=/" + Intercalate(names)) == names
  {
    var p := "/" + Intercalate(names);
    var h := "dir=/" + Intercalate(names);
    assert HintPath(h) == p by {
      assert h == "dir=" + p;
      HintPathPlain(p);
    }
    assert PathParts(p) == ["/"] + names by {
      PathPartsAbsolute(names);
    }
    assert (["/"] + names)[1..] == names;
  }

  /**
   * A relative hint `dir=a/b…` loses its first segment: `parts[1:]`
   * drops it as though it were the root, and a single segment leaves `[""]`.
   */
  lemma RelativeHint(names: seq<string>)
    requires |names| > 0
    requires forall i :: 0 <= i < |names| ==> IsName(names[i])
    requires var p := Intercalate(names);
      p != [] && !IsSpace(p[0]) && !IsSpace(p[|p| - 1]) && !Contains(p, "dir=")
    ensures HintParts("dir=" + Intercalate(names)) == if |names| == 1 then [""] else names[1..]
  {
    HintPathPlain(Intercalate(names));
    PathPartsRelative(names);
  }

  /**
   * Whether reading the URL path raises IndexError: `parts[2]` needs three
   * parts, and with exactly three `keyparts` is empty, so `keyparts[0]`
   * raises when a switch is on. The `and` tests short-circuit, so with
   * both switches off `keyparts[0]` is never read.
   */
  predicate IndexFails(parts: seq<string>, cfg: Config) {
    |parts| < 3 || (|parts| == 3 && (cfg.collapseData || cfg.collapseMetadata))
  }

  /**
   * The key and entry one hint line writes under the current URL `url`,
   * or the error it raises. It fails exactly when the URL path has fewer
   * than four parts, or has four and the collapse removes the last;
   * otherwise the key and name hold no space, the name is the last URL
   * path part, the url is kept verbatim, and "dir" depends on the hint
   * and the switches alone.
   */
  function EntryFor(url: string, hint: string, cfg: Config, line: nat): (r: Result<(string, Item), Error>)
    ensures var parts := UrlParts(url);
      r.Failure? <==> |parts| < 4 || (|parts| == 4 && Collapses(parts[3], cfg))
    ensures r.Failure? ==> r.error == (if IndexFails(UrlParts(url), cfg) then PathTooShort(line) else EmptyKey(line))
    ensures r.Success? ==>
      var parts := UrlParts(url);
      var (key, item) := r.value;
      ' ' !in key && ' ' !in item.name && item.url == url
      && item.name == Sanitize(parts[|parts| - 1]) && item.dir == DirOf(hint, cfg)
  {
    var parts := UrlParts(url);
    if IndexFails(parts, cfg) then Failure(PathTooShort(line))
    else
      var keyParts := if |parts| == 3 then [] else Collapse(parts[3..], cfg);
      if keyParts == [] then Failure(EmptyKey(line))
      else Success((Sanitize(OsPathJoin(keyParts)), Item(url, Sanitize(parts[|parts| - 1]), DirOf(hint, cfg))))
  }

  /** The URL of an archive file: host, then the path made of `names`, then a query or fragment. */
  function ArchiveUrl(host: string, names: seq<string>, tail: string): string {
    "https://" + host + ("/" + Intercalate(names)) + tail
  }

  /** A path segment of an archive URL: a name with no query or fragment delimiter in it. */
  predicate Segment(seg: string) {
    IsName(seg) && '?' !in seg && '#' !in seg
  }

  /** A join of segments holds no query or fragment delimiter either. */
  lemma {:induction false} SegmentsJoin(segs: seq<string>)
    requires forall i :: 0 <= i < |segs| ==> Segment(segs[i])
    ensures '?' !in Intercalate(segs) && '#' !in Intercalate(segs)
    decreases |segs|
  {
    if |segs| > 1 {
      assert Segment(segs[0]);
      SegmentsJoin(segs[1..]);
    }
  }

  /** The path parts of an archive URL are the root and its names. */
  lemma ArchiveUrlParts(host: string, names: seq<string>, tail: string)
    requires '/' !in host && '?' !in host && '#' !in host
    requires forall i :: 0 <= i < |names| ==> Segment(names[i])
    requires tail == [] || tail[0] == '?' || tail[0] == '#'
    ensures UrlParts(ArchiveUrl(host, names, tail)) == ["/"] + names
  {
    ArchivePath(host, names, tail);
    assert forall i :: 0 <= i < |names| ==> IsName(names[i]);
    PathPartsAbsolute(names);
  }

  /** The path component of an archive URL is `/` joined with its names. */
  lemma ArchivePath(host: string, names: seq<string>, tail: string)
    requires '/' !in host && '?' !in host && '#' !in host
    requires forall i :: 0 <= i < |names| ==> Segment(names[i])
    requires tail == [] || tail[0] == '?' || tail[0] == '#'
    ensures UrlPath(ArchiveUrl(host, names, tail)) == "/" + Intercalate(names)
  {
    var path := "/" + Intercalate(names);
    SegmentsJoin(names);
    UrlPathOf(host, path, tail);
  }

  /**
   * For an archive URL `https://<host>/<service>/<project>/<rest…>`, that
   * is with `names == [service, project] + rest`, the key is the
   * sanitised join of the rest of the path minus one collapsed leading
   * folder, and the name is its sanitised last part.
   */
  lemma ArchiveKey(host: string, names: seq<string>, tail: string, hint: string, cfg: Config, line: nat)
    requires '/' !in host && '?' !in host && '#' !in host
    requires forall i :: 0 <= i < |names| ==> Segment(names[i])
    requires tail == [] || tail[0] == '?' || tail[0] == '#'
    requires |names| > 3 || (|names| == 3 && !Collapses(names[2], cfg))
    ensures EntryFor(ArchiveUrl(host, names, tail), hint, cfg, line)
      == Success((Sanitize(Intercalate(Collapse(names[2..], cfg))),
                  Item(ArchiveUrl(host, names, tail), Sanitize(names[|names| - 1]), DirOf(hint, cfg))))
  {
    ArchiveUrlParts(host, names, tail);
    EntryOfParts(ArchiveUrl(host, names, tail), names, hint, cfg, line);
  }

  /** The entry of any URL whose path parts are the root and the names `names`. */
  lemma EntryOfParts(url: string, names: seq<string>, hint: string, cfg: Config, line: nat)
    requires UrlParts(url) == ["/"] + names
    requires forall i :: 0 <= i < |names| ==> IsName(names[i])
    requires |names| > 3 || (|names| == 3 && !Collapses(names[2], cfg))
    ensures EntryFor(url, hint, cfg, line)
      == Success((Sanitize(Intercalate(Collapse(names[2..], cfg))),
                  Item(url, Sanitize(names[|names| - 1]), DirOf(hint, cfg))))
  {
    var rest := names[2..];
    assert (["/"] + names)[3..] == rest;
    var keyParts := Collapse(rest, cfg);
    forall i | 0 <= i < |keyParts| ensures IsName(keyParts[i]) {
      assert keyParts[i] == names[2 + |rest| - |keyParts| + i];
    }
    OsPathJoinNames(keyParts);
    EntryForSuccess(url, hint, cfg, line);
  }

  /** With clean segments the sanitisation changes nothing: the key is the plain join, the name the last segment. */
  lemma CleanArchiveKey(host: string, names: seq<string>, tail: string, hint: string, cfg: Config, line: nat)
    requires '/' !in host && '?' !in host && '#' !in host
    requires forall i :: 0 <= i < |names| ==> Clean(names[i])
    requires tail == [] || tail[0] == '?' || tail[0] == '#'
    requires |names| > 3 || (|names| == 3 && !Collapses(names[2], cfg))
    ensures EntryFor(ArchiveUrl(host, names, tail), hint, cfg, line)
      == Success((Intercalate(Collapse(names[2..], cfg)),
                  Item(ArchiveUrl(host, names, tail), names[|names| - 1], DirOf(hint, cfg))))
  {
    assert forall i :: 0 <= i < |names| ==> Segment(names[i]);
    ArchiveKey(host, names, tail, hint, cfg, line);
    CleanSuffix(names, 2);
    CleanKey(names[2..], cfg);
    CleanPath(Collapse(names[2..], cfg));
  }

  /** The key parts and the last part of a clean path tail come through the sanitisation intact. */
  lemma CleanKey(rest: seq<string>, cfg: Config)
    requires forall i :: 0 <= i < |rest| ==> Clean(rest[i])
    requires |rest| > 1 || (|rest| == 1 && !Collapses(rest[0], cfg))
    ensures Sanitize(OsPathJoin(Collapse(rest, cfg))) == Intercalate(Collapse(rest, cfg))
    ensures Sanitize(rest[|rest| - 1]) == rest[|rest| - 1]
  {
    var keyParts := Collapse(rest, cfg);
    CleanSuffix(rest, |rest| - |keyParts|);
    CleanPath(keyParts);
    OsPathJoinNames(keyParts);
    assert Clean(rest[|rest| - 1]);
  }

  /** The entry of a URL with a usable path, spelled out. */
  lemma EntryForSuccess(url: string, hint: string, cfg: Config, line: nat)
    requires |UrlParts(url)| >= 4 && Collapse(UrlParts(url)[3..], cfg) != []
    ensures var parts := UrlParts(url);
      EntryFor(url, hint, cfg, line)
        == Success((Sanitize(OsPathJoin(Collapse(parts[3..], cfg))),
                    Item(url, Sanitize(parts[|parts| - 1]), DirOf(hint, cfg))))
  {
  }

  lemma CleanSuffix(segs: seq<string>, k: nat)
    requires k <= |segs|
    requires forall i :: 0 <= i < |segs| ==> Clean(segs[i])
    ensures forall i :: 0 <= i < |segs[k..]| ==> Clean(segs[k..][i])
  {
    forall i | 0 <= i < |segs[k..]| ensures Clean(segs[k..][i]) {
      assert segs[k..][i] == segs[k + i];
    }
  }

  /** A path segment that survives pathlib and the sanitisation unchanged. */
  predicate Clean(seg: string) {
    IsName(seg) && '?' !in seg && '#' !in seg && ' ' !in seg && !Contains(seg, "%20")
  }

  /** Joining clean segments leaves nothing for the sanitisation or the URL parser to change. */
  lemma {:induction false} CleanPath(segs: seq<string>)
    requires forall i :: 0 <= i < |segs| ==> Clean(segs[i])
    ensures forall i :: 0 <= i < |segs| ==> IsName(segs[i])
    ensures '?' !in Intercalate(segs) && '#' !in Intercalate(segs) && ' ' !in Intercalate(segs)
    ensures !Contains(Intercalate(segs), "%20")
    ensures Sanitize(Intercalate(segs)) == Intercalate(segs)
    decreases |segs|
  {
    if |segs| > 1 {
      CleanPath(segs[1..]);
      NoPercent20Join(segs[0], Intercalate(segs[1..]));
    }
  }

  /** A `%20` in `a + "/" + b` lies wholly in `a` or wholly in `b`. */
  lemma {:induction false} NoPercent20Join(a: string, b: string)
    requires !Contains(a, "%20") && !Contains(b, "%20")
    ensures !Contains(a + "/" + b, "%20")
    decreases |a|
  {
    if a == [] {
      var x := "/" + b;
      assert x == a + "/" + b;
      if |x| >= 3 {
        assert x[..3][0] == '/';
      }
      assert x[1..] == b;
    } else {
      assert !StartsWith(a, "%20");
      assert (a + "/" + b)[1..] == a[1..] + "/" + b;
      NoPercent20Join(a[1..], b);
      var x := a + "/" + b;
      if |a| >= 3 {
        assert x[..3] == a[..3];
      } else if |x| >= 3 {
        assert x[..3][|a|] == '/';
      }
    }
  }

  // ---------------------------------------------------------------------
  // The line-by-line fold

  /** What the loop carries from line to line: the current URL and the map. */
  datatype State = State(url: Option<string>, items: map<string, Item>)

  /**
   * How a hint line is turned into a key and an entry, given the current
   * URL, the line and its index. The fold below, and what is proved about
   * it, holds for any such derivation; the parser uses `Derivation(cfg)`.
   */
  type Derive = (string, string, nat) -> Result<(string, Item), Error>

  /** The derivation of `download_from_DAP_links`: `EntryFor` under the switches `cfg`. */
  function Derivation(cfg: Config): Derive {
    (url: string, hint: string, n: nat) => EntryFor(url, hint, cfg, n)
  }

  /** The effect of line number `n` on the loop's state. */
  function Step(st: State, line: string, n: nat, derive: Derive): (r: Result<State, Error>)
    ensures r.Failure? ==> Classify(line) == Hint
    ensures Classify(line) != Hint ==> r.Success? && r.value.items == st.items
    ensures r.Success? ==>
      r.value.url == (if Classify(line) == UrlLine then Some(line) else st.url)
  {
    match Classify(line)
    case Comment => Success(st)
    case UrlLine => Success(State(Some(line), st.items))
    case Hint =>
      match st.url
      case None => Failure(NoCurrentUrl(n))
      case Some(u) =>
        match derive(u, line, n)
        case Failure(e) => Failure(e)
        case Success(entry) => Success(State(st.url, st.items[entry.0 := entry.1]))
  }

  /** The state after the loop has run over all of `lines`, or the first error raised. */
  function Parse(lines: seq<string>, derive: Derive): (r: Result<State, Error>)
    ensures r.Failure? ==> HintCount(lines) > 0
    ensures lines == [] ==> r == Success(State(None, map[]))
    decreases |lines|
  {
    if lines == [] then Success(State(None, map[]))
    else
      match Parse(lines[..|lines| - 1], derive)
      case Failure(e) => Failure(e)
      case Success(st) => Step(st, lines[|lines| - 1], |lines| - 1, derive)
  }

  /** The most recent URL line among `lines`, if any. */
  function CurrentUrl(lines: seq<string>): Option<string>
    decreases |lines|
  {
    if lines == [] then None
    else if Classify(lines[|lines| - 1]) == UrlLine then Some(lines[|lines| - 1])
    else CurrentUrl(lines[..|lines| - 1])
  }

  /** The number of hint lines among `lines`. */
  function HintCount(lines: seq<string>): nat
    decreases |lines|
  {
    if lines == [] then 0
    else HintCount(lines[..|lines| - 1]) + (if Classify(lines[|lines| - 1]) == Hint then 1 else 0)
  }

  /** What hint line `i` writes, judged from the lines before it alone. */
  function EntryAt(lines: seq<string>, i: nat, derive: Derive): Result<(string, Item), Error>
    requires i < |lines|
  {
    match CurrentUrl(lines[..i])
    case None => Failure(NoCurrentUrl(i))
    case Some(u) => derive(u, lines[i], i)
  }

  /** Line `i` is a hint line that writes `item` under `key`. */
  predicate Writes(lines: seq<string>, i: nat, derive: Derive, key: string, item: Item) {
    i < |lines| && Classify(lines[i]) == Hint && EntryAt(lines, i, derive) == Success((key, item))
  }

  /** Line `i` is a hint line that writes some entry under `key`. */
  predicate WritesKey(lines: seq<string>, i: nat, derive: Derive, key: string) {
    i < |lines| && Classify(lines[i]) == Hint && EntryAt(lines, i, derive).Success?
    && EntryAt(lines, i, derive).value.0 == key
  }

  /** A line keeps what it writes when more lines follow it. */
  lemma EntryAtPrefix(lines: seq<string>, n: nat, i: nat, derive: Derive)
    requires i < n <= |lines|
    ensures EntryAt(lines[..n], i, derive) == EntryAt(lines, i, derive)
  {
    assert lines[..n][..i] == lines[..i];
  }

  /** Appending a line runs one more step of the loop. */
  lemma ParseSnoc(lines: seq<string>, line: string, derive: Derive)
    ensures Parse(lines + [line], derive)
      == if Parse(lines, derive).Failure? then Parse(lines, derive) else Step(Parse(lines, derive).value, line, |lines|, derive)
  {
    assert (lines + [line])[..|lines|] == lines;
  }

  /**
   * What each kind of line does: a comment changes nothing, a URL line
   * replaces the current URL and leaves the map alone, and a hint line
   * keeps the URL and writes exactly one entry, under the key its
   * current URL gives, or raises.
   */
  lemma LineEffect(lines: seq<string>, line: string, derive: Derive, st: State)
    requires Parse(lines, derive) == Success(st)
    ensures Classify(line) == Comment ==> Parse(lines + [line], derive) == Success(st)
    ensures Classify(line) == UrlLine ==> Parse(lines + [line], derive) == Success(State(Some(line), st.items))
    ensures Classify(line) == Hint ==>
      var entry := EntryAt(lines + [line], |lines|, derive);
      Parse(lines + [line], derive)
        == if entry.Failure? then Failure(entry.error)
           else Success(State(st.url, st.items[entry.value.0 := entry.value.1]))
  {
    ParseSnoc(lines, line, derive);
    ParseUrl(lines, derive, st);
    assert (lines + [line])[..|lines|] == lines;
  }

  /** The URL the loop carries is the most recent URL line. */
  lemma {:induction false} ParseUrl(lines: seq<string>, derive: Derive, st: State)
    requires Parse(lines, derive) == Success(st)
    ensures st.url == CurrentUrl(lines)
    decreases |lines|
  {
    if lines != [] {
      var init := lines[..|lines| - 1];
      var st0 :| Parse(init, derive) == Success(st0);
      ParseUrl(init, derive, st0);
    }
  }

  /** An error raised on the first `n` lines is the error of the whole manifest. */
  lemma {:induction false} ParseErrorPersists(lines: seq<string>, n: nat, derive: Derive)
    requires n <= |lines| && Parse(lines[..n], derive).Failure?
    ensures Parse(lines, derive) == Parse(lines[..n], derive)
    decreases |lines|
  {
    if n < |lines| {
      var init := lines[..|lines| - 1];
      assert init[..n] == lines[..n];
      ParseErrorPersists(init, n, derive);
    } else {
      assert lines[..n] == lines;
    }
  }

  /**
   * The manifest parses exactly when every hint line writes an entry:
   * it has a URL before it, and that URL's path is long enough.
   */
  lemma {:induction false} ParseSucceedsIff(lines: seq<string>, derive: Derive)
    ensures Parse(lines, derive).Success?
      <==> forall i :: 0 <= i < |lines| && Classify(lines[i]) == Hint ==> EntryAt(lines, i, derive).Success?
    decreases |lines|
  {
    if lines != [] {
      var n := |lines| - 1;
      var init := lines[..n];
      ParseSucceedsIff(init, derive);
      forall i | 0 <= i < n ensures EntryAt(init, i, derive) == EntryAt(lines, i, derive) {
        EntryAtPrefix(lines, n, i, derive);
      }
      assert forall i :: 0 <= i < n ==> init[i] == lines[i];
      if r :| Parse(init, derive) == Success(r) {
        ParseUrl(init, derive, r);
      }
    }
  }

  /** A hint line with no URL line before it makes the whole parse fail. */
  lemma NoUrlFails(lines: seq<string>, i: nat, derive: Derive)
    requires i < |lines| && Classify(lines[i]) == Hint
    requires forall j :: 0 <= j < i ==> Classify(lines[j]) != UrlLine
    ensures Parse(lines, derive).Failure?
  {
    NoUrlLine(lines[..i]);
    assert EntryAt(lines, i, derive).Failure?;
    ParseSucceedsIff(lines, derive);
  }

  lemma {:induction false} NoUrlLine(lines: seq<string>)
    requires forall j :: 0 <= j < |lines| ==> Classify(lines[j]) != UrlLine
    ensures CurrentUrl(lines) == None
    decreases |lines|
  {
    if lines != [] {
      NoUrlLine(lines[..|lines| - 1]);
    }
  }

  /**
   * Last write wins: an entry written by a hint line that no later hint
   * line overwrites is in the final map, unchanged.
   */
  lemma {:induction false} LastWriteWins(lines: seq<string>, derive: Derive, st: State, i: nat, key: string, item: Item)
    requires Parse(lines, derive) == Success(st)
    requires Writes(lines, i, derive, key, item)
    requires forall j :: i < j < |lines| ==> !WritesKey(lines, j, derive, key)
    ensures key in st.items && st.items[key] == item
    decreases |lines|
  {
    var n := |lines| - 1;
    var init := lines[..n];
    ParseSnoc(init, lines[n], derive);
    assert init + [lines[n]] == lines;
    var st0 :| Parse(init, derive) == Success(st0);
    ParseUrl(init, derive, st0);
    if i < n {
      EntryAtPrefix(lines, n, i, derive);
      forall j: nat | i < j < n ensures !WritesKey(init, j, derive, key) {
        EntryAtPrefix(lines, n, j, derive);
        assert init[j] == lines[j];
        assert !WritesKey(lines, j, derive, key);
      }
      LastWriteWins(init, derive, st0, i, key, item);
      assert !WritesKey(lines, n, derive, key);
    }
  }

  /**
   * Every key in the final map comes from a hint line, the last one to
   * write that key, and maps to what that line wrote.
   */
  lemma {:induction false} KeysFromHints(lines: seq<string>, derive: Derive, st: State, key: string)
    requires Parse(lines, derive) == Success(st)
    requires key in st.items
    ensures exists i: nat :: (Writes(lines, i, derive, key, st.items[key])
                         && forall j :: i < j < |lines| ==> !WritesKey(lines, j, derive, key))
    decreases |lines|
  {
    var n := |lines| - 1;
    var init := lines[..n];
    ParseSnoc(init, lines[n], derive);
    assert init + [lines[n]] == lines;
    var st0 :| Parse(init, derive) == Success(st0);
    ParseUrl(init, derive, st0);
    if WritesKey(lines, n, derive, key) {
      assert Writes(lines, n, derive, key, st.items[key]);
    } else {
      assert key in st0.items && st0.items[key] == st.items[key];
      KeysFromHints(init, derive, st0, key);
      var i: nat :| Writes(init, i, derive, key, st0.items[key])
        && forall j :: i < j < |init| ==> !WritesKey(init, j, derive, key);
      EntryAtPrefix(lines, n, i, derive);
      forall j: nat | i < j < |lines| ensures !WritesKey(lines, j, derive, key) {
        if j < n {
          EntryAtPrefix(lines, n, j, derive);
          assert init[j] == lines[j];
          assert !WritesKey(init, j, derive, key);
        }
      }
      assert Writes(lines, i, derive, key, st.items[key]);
    }
  }

  /** Collisions only ever shrink the map: it has at most one key per hint line. */
  lemma {:induction false} KeysAtMostHints(lines: seq<string>, derive: Derive, st: State)
    requires Parse(lines, derive) == Success(st)
    ensures |st.items| <= HintCount(lines)
    decreases |lines|
  {
    if lines != [] {
      var n := |lines| - 1;
      var init := lines[..n];
      ParseSnoc(init, lines[n], derive);
      assert init + [lines[n]] == lines;
      var st0 := Parse(init, derive).value;
      KeysAtMostHints(init, derive, st0);
      if Classify(lines[n]) == Hint {
        var e := derive(st0.url.value, lines[n], n).value;
        assert st.items == st0.items[e.0 := e.1];
        UpdateCard(st0.items, e.0, e.1);
      }
    }
  }

  /** Writing one key adds at most one key, and exactly one when it is new. */
  lemma UpdateCard<K, V>(m: map<K, V>, k: K, v: V)
    ensures |m[k := v]| <= |m| + 1
    ensures k !in m ==> |m[k := v]| == |m| + 1
  {
    assert m[k := v].Keys == m.Keys + {k};
  }

  /** When no two hint lines write the same key, there is one key per hint line. */
  lemma {:induction false} DistinctKeysCount(lines: seq<string>, derive: Derive, st: State)
    requires Parse(lines, derive) == Success(st)
    requires forall i: nat, j: nat, key :: i < j && WritesKey(lines, i, derive, key) ==> !WritesKey(lines, j, derive, key)
    ensures |st.items| == HintCount(lines)
    decreases |lines|
  {
    if lines != [] {
      var n := |lines| - 1;
      var init := lines[..n];
      ParseSnoc(init, lines[n], derive);
      assert init + [lines[n]] == lines;
      var st0 :| Parse(init, derive) == Success(st0);
      ParseUrl(init, derive, st0);
      forall i: nat, j: nat, key | i < j && WritesKey(init, i, derive, key) ensures !WritesKey(init, j, derive, key) {
        EntryAtPrefix(lines, n, i, derive);
        assert init[i] == lines[i];
        assert WritesKey(lines, i, derive, key);
        if j < n {
          EntryAtPrefix(lines, n, j, derive);
          assert init[j] == lines[j];
          assert !WritesKey(lines, j, derive, key);
        }
      }
      DistinctKeysCount(init, derive, st0);
      if Classify(lines[n]) == Hint {
        var e := EntryAt(lines, n, derive).value;
        assert WritesKey(lines, n, derive, e.0);
        if e.0 in st0.items {
          KeysFromHints(init, derive, st0, e.0);
          var i: nat :| Writes(init, i, derive, e.0, st0.items[e.0]) && forall j :: i < j < |init| ==> !WritesKey(init, j, derive, e.0);
          EntryAtPrefix(lines, n, i, derive);
          assert WritesKey(lines, i, derive, e.0);
          assert false;
        }
        assert st.items == st0.items[e.0 := e.1];
        UpdateCard(st0.items, e.0, e.1);
      }
    }
  }
}
