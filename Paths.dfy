/**
 * The path handling the parser relies on, on POSIX: `str.split("/")`,
 * `pathlib.Path(p).parts`, `os.path.join(*parts)`, the `/` operator of
 * `pathlib.Path`, and the `path` component of `urllib.parse.urlparse`.
 */
module Paths {
  import opened Text

  /** `s.split("/")`: never empty, and no piece holds a separator. */
  function Split(s: string): (r: seq<string>)
    ensures |r| >= 1
    decreases |s|
  {
    if s == [] then [""]
    else
      var rest := Split(s[1..]);
      if s[0] == '/' then [""] + rest
      else [[s[0]] + rest[0]] + rest[1..]
  }

  /** No piece of a split holds the separator. */
  lemma {:induction false} SplitNoSlash(s: string)
    ensures forall i :: 0 <= i < |Split(s)| ==> '/' !in Split(s)[i]
    decreases |s|
  {
    if s != [] {
      SplitNoSlash(s[1..]);
    }
  }

  /** `"/".join(parts)` */
  function Intercalate(parts: seq<string>): string
    decreases |parts|
  {
    if parts == [] then ""
    else if |parts| == 1 then parts[0]
    else parts[0] + "/" + Intercalate(parts[1..])
  }

  /** Joining the pieces of a split gives the string back. */
  lemma {:induction false} IntercalateSplit(s: string)
    ensures Intercalate(Split(s)) == s
    decreases |s|
  {
    if s != [] {
      var rest := Split(s[1..]);
      IntercalateSplit(s[1..]);
      assert s == [s[0]] + s[1..];
      if s[0] == '/' {
        IntercalateCons("", rest);
      } else if |rest| == 1 {
        assert Split(s) == [[s[0]] + rest[0]];
      } else {
        IntercalateCons([s[0]] + rest[0], rest[1..]);
        assert [rest[0]] + rest[1..] == rest;
        IntercalateCons(rest[0], rest[1..]);
      }
    }
  }

  lemma {:induction false} SplitName(p: string)
    requires '/' !in p
    ensures Split(p) == [p]
    decreases |p|
  {
    if p != [] {
      SplitName(p[1..]);
      assert p == [p[0]] + p[1..];
    }
  }

  lemma {:induction false} SplitSlash(p: string, x: string)
    requires '/' !in p
    ensures Split(p + "/" + x) == [p] + Split(x)
    decreases |p|
  {
    if p == [] {
      assert p + "/" + x == "/" + x;
      assert ("/" + x)[1..] == x;
    } else {
      assert (p + "/" + x)[1..] == p[1..] + "/" + x;
      SplitSlash(p[1..], x);
      assert p == [p[0]] + p[1..];
    }
  }

  /** Splitting a join of separator-free pieces gives the pieces back. */
  lemma {:induction false} SplitIntercalate(parts: seq<string>)
    requires |parts| >= 1
    requires forall i :: 0 <= i < |parts| ==> '/' !in parts[i]
    ensures Split(Intercalate(parts)) == parts
    decreases |parts|
  {
    if |parts| == 1 {
      SplitName(parts[0]);
    } else {
      SplitSlash(parts[0], Intercalate(parts[1..]));
      SplitIntercalate(parts[1..]);
      assert parts == [parts[0]] + parts[1..];
    }
  }

  /** A segment pathlib keeps as one of a path's parts. */
  predicate IsName(seg: string) {
    seg != "" && seg != "." && '/' !in seg
  }

  /** The pieces of a split that pathlib keeps: empty pieces and "." go. */
  function Named(segs: seq<string>): (r: seq<string>)
    ensures |r| <= |segs|
    decreases |segs|
  {
    if segs == [] then []
    else if segs[0] == "" || segs[0] == "." then Named(segs[1..])
    else [segs[0]] + Named(segs[1..])
  }

  /** What `Named` keeps are names when no piece held a separator; names come through unchanged. */
  lemma {:induction false} NamedShape(segs: seq<string>)
    requires forall i :: 0 <= i < |segs| ==> '/' !in segs[i]
    ensures forall i :: 0 <= i < |Named(segs)| ==> IsName(Named(segs)[i])
    ensures (forall i :: 0 <= i < |segs| ==> IsName(segs[i])) ==> Named(segs) == segs
    decreases |segs|
  {
    if segs != [] {
      NamedShape(segs[1..]);
    }
  }

  /**
   * `pathlib.PurePosixPath(p).parts`: the root "/" when the path is
   * absolute, then the named segments.
   */
  function PathParts(p: string): (r: seq<string>)
    ensures StartsWith(p, "/") <==> (|r| > 0 && r[0] == "/")
  {
    SplitNoSlash(p);
    NamedShape(Split(p));
    (if StartsWith(p, "/") then ["/"] else []) + Named(Split(p))
  }

  /** Every part after the root is a name. */
  lemma PathPartsNames(p: string)
    ensures var r := PathParts(p);
      forall i :: (if StartsWith(p, "/") then 1 else 0) <= i < |r| ==> IsName(r[i])
  {
    SplitNoSlash(p);
    NamedShape(Split(p));
  }

  /** A separator-free string is one part, or none when it is "" or ".". */
  lemma PathPartsName(n: string)
    requires '/' !in n
    ensures PathParts(n) == (if n == "" || n == "." then [] else [n])
  {
    SplitName(n);
    assert n != [] ==> n[0] in n;
  }

  /** A join starts with its first piece. */
  lemma IntercalateHead(parts: seq<string>)
    requires |parts| > 0
    ensures |parts[0]| <= |Intercalate(parts)| && Intercalate(parts)[..|parts[0]|] == parts[0]
  {
    if |parts| > 1 {
      assert Intercalate(parts) == parts[0] + ("/" + Intercalate(parts[1..]));
    }
  }

  /** Parsing a relative path made of names gives exactly those names. */
  lemma PathPartsRelative(names: seq<string>)
    requires forall i :: 0 <= i < |names| ==> IsName(names[i])
    ensures PathParts(Intercalate(names)) == names
  {
    if names != [] {
      RelativeJoin(names);
    }
    NamedSplitNames(names);
  }

  /** Splitting a join of names and keeping the named pieces gives the names back. */
  lemma NamedSplitNames(names: seq<string>)
    requires forall i :: 0 <= i < |names| ==> IsName(names[i])
    ensures Named(Split(Intercalate(names))) == names
  {
    if names == [] {
      assert Intercalate(names) == "";
      assert Split("") == [""];
    } else {
      SplitIntercalate(names);
      NamedShape(names);
    }
  }

  /** A join of names does not start at the root. */
  lemma RelativeJoin(names: seq<string>)
    requires |names| > 0
    requires forall i :: 0 <= i < |names| ==> IsName(names[i])
    ensures !StartsWith(Intercalate(names), "/")
  {
    IntercalateHead(names);
    var first := names[0];
    assert IsName(first);
    assert Intercalate(names)[0] == first[0];
    assert first[0] in first;
  }

  /** Parsing an absolute path made of names gives the root and those names. */
  lemma PathPartsAbsolute(names: seq<string>)
    requires forall i :: 0 <= i < |names| ==> IsName(names[i])
    ensures PathParts("/" + Intercalate(names)) == ["/"] + names
  {
    var x := Intercalate(names);
    var p := "/" + x;
    assert p[0] == '/' && p[1..] == x;
    assert Split(p) == [""] + Split(x);
    NamedSplitNames(names);
    assert ([""] + Split(x))[1..] == Split(x);
    assert Named(Split(p)) == names;
    assert StartsWith(p, "/");
  }

  /** One step of `os.path.join`: an absolute piece restarts the path. */
  function JoinStep(path: string, b: string): string {
    if StartsWith(b, "/") then b
    else if path == [] || path[|path| - 1] == '/' then path + b
    else path + "/" + b
  }

  function JoinFrom(path: string, rest: seq<string>): string
    decreases |rest|
  {
    if rest == [] then path else JoinFrom(JoinStep(path, rest[0]), rest[1..])
  }

  /**
   * `os.path.join(*parts)` on POSIX. Python refuses a call with no
   * argument at all, hence the precondition; callers model that error.
   * An absolute last piece restarts the path; `OsPathJoinNames` and
   * `OsPathJoinEnds` state the rest of what it computes.
   */
  function OsPathJoin(parts: seq<string>): (r: string)
    requires |parts| > 0
    ensures |parts| == 1 ==> r == parts[0]
    ensures StartsWith(parts[|parts| - 1], "/") ==> r == parts[|parts| - 1]
  {
    JoinFromAbsolute(parts[0], parts[1..]);
    JoinFrom(parts[0], parts[1..])
  }

  /** A join ends with its last piece: each step ends with the piece it adds. */
  lemma {:induction false} JoinFromEnds(path: string, rest: seq<string>)
    ensures EndsWith(JoinFrom(path, rest), if rest == [] then path else rest[|rest| - 1])
    decreases |rest|
  {
    if rest != [] {
      var next := JoinStep(path, rest[0]);
      assert EndsWith(next, rest[0]);
      JoinFromEnds(next, rest[1..]);
      if |rest| > 1 {
        assert rest[1..][|rest| - 2] == rest[|rest| - 1];
      }
    } else {
      assert path[|path| - |path|..] == path;
    }
  }

  /** An absolute last piece is the whole join, whatever comes before it. */
  lemma {:induction false} JoinFromAbsolute(path: string, rest: seq<string>)
    ensures rest != [] && StartsWith(rest[|rest| - 1], "/") ==> JoinFrom(path, rest) == rest[|rest| - 1]
    decreases |rest|
  {
    if |rest| > 1 {
      assert rest[1..][|rest| - 2] == rest[|rest| - 1];
      JoinFromAbsolute(JoinStep(path, rest[0]), rest[1..]);
    }
  }

  /** `os.path.join(*parts)` ends with the last of `parts`. */
  lemma OsPathJoinEnds(parts: seq<string>)
    requires |parts| > 0
    ensures EndsWith(OsPathJoin(parts), parts[|parts| - 1])
  {
    JoinFromEnds(parts[0], parts[1..]);
    if |parts| > 1 {
      assert parts[1..][|parts| - 2] == parts[|parts| - 1];
    }
  }

  lemma {:induction false} JoinFromNames(acc: string, rest: seq<string>)
    requires acc != [] && acc[|acc| - 1] != '/'
    requires forall i :: 0 <= i < |rest| ==> IsName(rest[i])
    ensures JoinFrom(acc, rest) == Intercalate([acc] + rest)
    decreases |rest|
  {
    if rest != [] {
      var r0 := rest[0];
      var next := acc + "/" + r0;
      assert IsName(r0);
      assert r0[0] in r0 && r0[|r0| - 1] in r0;
      assert JoinStep(acc, r0) == next;
      assert next[|next| - 1] == r0[|r0| - 1];
      JoinFromNames(next, rest[1..]);
      IntercalateCons(acc, rest);
      if |rest| == 1 {
        assert [next] + rest[1..] == [next];
        assert rest == [r0];
      } else {
        IntercalateCons(next, rest[1..]);
        assert [r0] + rest[1..] == rest;
        IntercalateCons(r0, rest[1..]);
      }
    }
  }

  lemma IntercalateCons(x: string, parts: seq<string>)
    requires parts != []
    ensures Intercalate([x] + parts) == x + "/" + Intercalate(parts)
  {
    assert ([x] + parts)[1..] == parts;
  }

  /** On names, `os.path.join` is the plain "/"-join. */
  lemma OsPathJoinNames(names: seq<string>)
    requires |names| > 0
    requires forall i :: 0 <= i < |names| ==> IsName(names[i])
    ensures OsPathJoin(names) == Intercalate(names)
  {
    var first := names[0];
    assert IsName(first);
    assert first[|first| - 1] in first;
    JoinFromNames(first, names[1..]);
    assert [names[0]] + names[1..] == names;
  }

  /**
   * `a / b` on `pathlib` paths, given and yielding their parts;
   * `PathJoinParts` ties it to joining the raw paths and parsing again.
   */
  function PathJoin(a: seq<string>, b: seq<string>): (r: seq<string>)
    ensures |b| > 0 && b[0] == "/" ==> r == b
    ensures !(|b| > 0 && b[0] == "/") ==> r == a + b
  {
    if |b| > 0 && b[0] == "/" then b else a + b
  }

  /**
   * pathlib's `/` on parts agrees with joining the raw paths: the parts of
   * `a / b` are the parts of the `os.path.join` step of `a` and `b`.
   */
  lemma PathJoinParts(a: string, b: string)
    ensures PathJoin(PathParts(a), PathParts(b)) == PathParts(JoinStep(a, b))
  {
    if StartsWith(b, "/") {
    } else if a == [] {
      assert Split(a) == [""];
      assert a + b == b;
    } else if a[|a| - 1] == '/' {
      JoinAfterSlash(a, b);
    } else {
      JoinWithSlash(a, b);
    }
  }

  /** A path ending in `/` joins by plain concatenation. */
  lemma JoinAfterSlash(a: string, b: string)
    requires a != [] && a[|a| - 1] == '/' && !StartsWith(b, "/")
    ensures PathJoin(PathParts(a), PathParts(b)) == PathParts(a + b)
  {
    var a' := a[..|a| - 1];
    assert Named(Split(a + b)) == Named(Split(a)) + Named(Split(b)) by {
      TrailingSlashNamed(a);
      assert a + b == a' + "/" + b;
      NamedAcrossSlash(a', b);
    }
    assert StartsWith(a + b, "/") == StartsWith(a, "/") by {
      assert (a + b)[0] == a[0];
    }
    JoinedParts(a + b, a, b);
  }

  /** Otherwise the join puts one `/` between the two paths. */
  lemma JoinWithSlash(a: string, b: string)
    requires a != [] && !StartsWith(b, "/")
    ensures PathJoin(PathParts(a), PathParts(b)) == PathParts(a + "/" + b)
  {
    NamedAcrossSlash(a, b);
    assert StartsWith(a + "/" + b, "/") == StartsWith(a, "/") by {
      assert (a + "/" + b)[0] == a[0];
    }
    JoinedParts(a + "/" + b, a, b);
  }

  /** A path `x` with the root of `a` and the named pieces of `a` then `b` has the parts of `a / b`. */
  lemma JoinedParts(x: string, a: string, b: string)
    requires !StartsWith(b, "/") && StartsWith(x, "/") == StartsWith(a, "/")
    requires Named(Split(x)) == Named(Split(a)) + Named(Split(b))
    ensures PathJoin(PathParts(a), PathParts(b)) == PathParts(x)
  {
    RelativeParts(b);
    RootedParts(a);
    RootedParts(x);
    assert RootOf(x) == RootOf(a);
    ConcatJoin(PathParts(a), PathParts(b), PathParts(x), RootOf(a), Named(Split(a)));
  }

  /** The sequence step of `JoinedParts`: a relative right side is appended. */
  lemma ConcatJoin(pa: seq<string>, pb: seq<string>, px: seq<string>, root: seq<string>, na: seq<string>)
    requires pa == root + na && px == root + (na + pb)
    requires !(|pb| > 0 && pb[0] == "/")
    ensures PathJoin(pa, pb) == px
  {
    assert (root + na) + pb == root + (na + pb);
  }

  /** The root part of a path: "/" when it is absolute. */
  function RootOf(p: string): seq<string> {
    if StartsWith(p, "/") then ["/"] else []
  }

  /** The parts of any path: its root, then its named pieces. */
  lemma RootedParts(p: string)
    ensures PathParts(p) == RootOf(p) + Named(Split(p))
  {
  }

  /** A relative path has no root part. */
  lemma RelativeParts(b: string)
    requires !StartsWith(b, "/")
    ensures PathParts(b) == Named(Split(b))
  {
    assert [] + Named(Split(b)) == Named(Split(b));
  }

  /** A trailing `/` adds no part. */
  lemma TrailingSlashNamed(a: string)
    requires a != [] && a[|a| - 1] == '/'
    ensures Named(Split(a)) == Named(Split(a[..|a| - 1]))
  {
    var a' := a[..|a| - 1];
    assert a == a' + "/" + "";
    NamedAcrossSlash(a', "");
    assert Split("") == [""];
  }

  /** The named pieces of `a + "/" + b` are those of `a` followed by those of `b`. */
  lemma NamedAcrossSlash(a: string, b: string)
    ensures Named(Split(a + "/" + b)) == Named(Split(a)) + Named(Split(b))
  {
    SplitConcat(a, b);
    NamedConcat(Split(a), Split(b));
  }

  /** Splitting at a `/` splits the two sides separately. */
  lemma {:induction false} SplitConcat(a: string, b: string)
    ensures Split(a + "/" + b) == Split(a) + Split(b)
    decreases |a|
  {
    var s := a + "/" + b;
    if a == [] {
      assert s == "/" + b && s[1..] == b;
    } else {
      assert s[0] == a[0] && s[1..] == a[1..] + "/" + b;
      SplitConcat(a[1..], b);
      if a[0] != '/' {
        var r, ra := Split(s[1..]), Split(a[1..]);
        assert r[0] == ra[0] && r[1..] == ra[1..] + Split(b);
        assert Split(s) == [[a[0]] + ra[0]] + (ra[1..] + Split(b));
      }
    }
  }

  /** Keeping the named pieces distributes over concatenation. */
  lemma {:induction false} NamedConcat(x: seq<string>, y: seq<string>)
    ensures Named(x + y) == Named(x) + Named(y)
    decreases |x|
  {
    if x == [] {
      assert x + y == y;
    } else {
      assert (x + y)[0] == x[0] && (x + y)[1..] == x[1..] + y;
      NamedConcat(x[1..], y);
    }
  }

  /** The index of the first character of `s` in `stops`, or `|s|`. */
  function FirstOf(s: string, stops: set<char>): (i: nat)
    ensures i <= |s|
    ensures i < |s| ==> s[i] in stops
    decreases |s|
  {
    if s == [] || s[0] in stops then 0 else 1 + FirstOf(s[1..], stops)
  }

  /** No character before `FirstOf` is a stop. */
  lemma {:induction false} FirstOfSkips(s: string, stops: set<char>)
    ensures forall j :: 0 <= j < FirstOf(s, stops) ==> s[j] !in stops
    decreases |s|
  {
    if s != [] && s[0] !in stops {
      FirstOfSkips(s[1..], stops);
    }
  }

  /**
   * `urlparse(url).path` for the URLs a manifest holds: drop the `https:`
   * scheme, then a `//` authority running to the first `/`, `?` or `#`,
   * and keep what precedes the query or fragment.
   */
  function UrlPath(url: string): (r: string)
    ensures '?' !in r && '#' !in r
    ensures |r| <= |url|
  {
    var rest := if StartsWith(url, "https:") then url[6..] else url;
    var rest' := if StartsWith(rest, "//") then rest[2 + FirstOf(rest[2..], {'/', '?', '#'})..] else rest;
    FirstOfSkips(rest', {'?', '#'});
    rest'[..FirstOf(rest', {'?', '#'})]
  }

  /** The first stop in `a + b`, when `a` has none and `b` starts with one or is empty. */
  lemma {:induction false} FirstOfConcat(a: string, b: string, stops: set<char>)
    requires forall j :: 0 <= j < |a| ==> a[j] !in stops
    requires b == [] || b[0] in stops
    ensures FirstOf(a + b, stops) == |a|
    decreases |a|
  {
    if a != [] {
      assert (a + b)[0] == a[0];
      assert (a + b)[1..] == a[1..] + b;
      FirstOfConcat(a[1..], b, stops);
    } else {
      assert a + b == b;
    }
  }

  /** The `https:` scheme comes off whole. */
  lemma SchemeRest(rest: string)
    ensures StartsWith("https:" + rest, "https:") && ("https:" + rest)[6..] == rest
  {
  }

  /** A `//` authority ends where the path, query or fragment begins. */
  lemma AuthorityEnd(host: string, rest: string)
    requires '/' !in host && '?' !in host && '#' !in host
    requires rest == [] || rest[0] == '/' || rest[0] == '?' || rest[0] == '#'
    ensures var s := "//" + host + rest;
      2 + FirstOf(s[2..], {'/', '?', '#'}) <= |s| && s[2 + FirstOf(s[2..], {'/', '?', '#'})..] == rest
  {
    var s := "//" + host + rest;
    assert s[2..] == host + rest;
    FirstOfConcat(host, rest, {'/', '?', '#'});
  }

  /** For a URL built from a host, a path and a query or fragment, `UrlPath` recovers the path. */
  lemma UrlPathOf(host: string, path: string, tail: string)
    requires '/' !in host && '?' !in host && '#' !in host
    requires '?' !in path && '#' !in path
    requires path == [] || path[0] == '/'
    requires tail == [] || tail[0] == '?' || tail[0] == '#'
    ensures UrlPath("https://" + host + path + tail) == path
  {
    var url := "https://" + host + path + tail;
    var rest := "//" + host + (path + tail);
    assert url[6..] == rest && StartsWith(url, "https:") by {
      assert url == "https:" + rest;
      SchemeRest(rest);
    }
    assert StartsWith(rest, "//") && rest[2 + FirstOf(rest[2..], {'/', '?', '#'})..] == path + tail by {
      AuthorityEnd(host, path + tail);
    }
    assert (path + tail)[..FirstOf(path + tail, {'?', '#'})] == path by {
      FirstOfConcat(path, tail, {'?', '#'});
    }
  }
}
