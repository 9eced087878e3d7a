/**
 * The Python string operations the manifest parser relies on:
 * `str.startswith`, `str.strip`, `str.replace(p, "")` and the
 * space / `%20` sanitisation applied to keys, names and directories.
 */
module Text {

  /** `s.startswith(p)` */
  predicate StartsWith(s: string, p: string) {
    |p| <= |s| && s[..|p|] == p
  }

  /** `s.endswith(p)` */
  predicate EndsWith(s: string, p: string) {
    |p| <= |s| && s[|s| - |p|..] == p
  }

  /** `p` occurs somewhere in `s` (Python's `p in s`). */
  predicate Contains(s: string, p: string)
    decreases |s|
  {
    StartsWith(s, p) || (s != [] && Contains(s[1..], p))
  }

  /** A pattern holding a character that `s` lacks does not occur in `s`. */
  lemma {:induction false} MissingChar(s: string, p: string, c: char)
    requires c in p && c !in s
    ensures !Contains(s, p)
    decreases |s|
  {
    if s != [] {
      MissingChar(s[1..], p, c);
    }
  }

  /** The characters for which Python's `str.isspace` holds. */
  predicate IsSpace(c: char) {
    c == ' ' || ('\t' <= c <= '\r') || ('\U{1C}' <= c <= '\U{1F}')
    || c == '\U{85}' || c == '\U{A0}' || c == '\U{1680}'
    || ('\U{2000}' <= c <= '\U{200A}') || c == '\U{2028}' || c == '\U{2029}'
    || c == '\U{202F}' || c == '\U{205F}' || c == '\U{3000}'
  }

  /** `s.lstrip()`: the suffix of `s` left after dropping leading whitespace. */
  function LStrip(s: string): (r: string)
    ensures |r| <= |s| && r == s[|s| - |r|..]
    ensures r != [] ==> !IsSpace(r[0])
  {
    if s != [] && IsSpace(s[0]) then LStrip(s[1..]) else s
  }

  /** Everything `LStrip` drops is whitespace. */
  lemma {:induction false} LStripDropsSpaces(s: string)
    ensures forall i :: 0 <= i < |s| - |LStrip(s)| ==> IsSpace(s[i])
    decreases |s|
  {
    if s != [] && IsSpace(s[0]) {
      LStripDropsSpaces(s[1..]);
    }
  }

  /** `s.rstrip()`: the prefix of `s` left after dropping trailing whitespace. */
  function RStrip(s: string): (r: string)
    ensures |r| <= |s| && r == s[..|r|]
    ensures r != [] ==> !IsSpace(r[|r| - 1])
  {
    if s != [] && IsSpace(s[|s| - 1]) then RStrip(s[..|s| - 1]) else s
  }

  /** Everything `RStrip` drops is whitespace. */
  lemma {:induction false} RStripDropsSpaces(s: string)
    ensures forall i :: |RStrip(s)| <= i < |s| ==> IsSpace(s[i])
    decreases |s|
  {
    if s != [] && IsSpace(s[|s| - 1]) {
      RStripDropsSpaces(s[..|s| - 1]);
    }
  }

  /** `s.strip()` */
  function Strip(s: string): (r: string)
    ensures |r| <= |s|
    ensures |r| <= |LStrip(s)| && r == s[|s| - |LStrip(s)|..][..|r|]
    ensures r != [] ==> !IsSpace(r[0]) && !IsSpace(r[|r| - 1])
  {
    RStrip(LStrip(s))
  }

  /**
   * `s.replace(p, "")`: Python scans left to right and removes every
   * non-overlapping occurrence of `p`; text exposed by a removal is not
   * looked at again.
   */
  function RemoveAll(s: string, p: string): (r: string)
    requires p != []
    ensures |r| <= |s|
    ensures !Contains(s, p) ==> r == s
    decreases |s|
  {
    if |s| < |p| then s
    else if s[..|p|] == p then RemoveAll(s[|p|..], p)
    else [s[0]] + RemoveAll(s[1..], p)
  }

  /**
   * Removal adds no character; removing a one-character pattern removes
   * that character everywhere and keeps every other one.
   */
  lemma {:induction false} RemoveAllChars(s: string, p: string)
    requires p != []
    ensures forall c :: c in RemoveAll(s, p) ==> c in s
    ensures |p| == 1 ==> forall c :: c in RemoveAll(s, p) <==> c in s && c != p[0]
    decreases |s|
  {
    if |s| >= |p| {
      if s[..|p|] == p {
        RemoveAllChars(s[|p|..], p);
        assert s == s[..|p|] + s[|p|..];
      } else {
        RemoveAllChars(s[1..], p);
        assert s == [s[0]] + s[1..];
      }
    }
  }

  /**
   * The sanitisation the parser applies to keys, names and directories:
   * `.replace(" ", "").replace("%20", "")`.
   */
  function Sanitize(s: string): (r: string)
    ensures ' ' !in r
    ensures |r| <= |s|
    ensures ' ' !in s && !Contains(s, "%20") ==> r == s
  {
    ContainsChar(s, ' ');
    RemoveAllChars(s, " ");
    RemoveAllChars(RemoveAll(s, " "), "%20");
    RemoveAll(RemoveAll(s, " "), "%20")
  }

  /** Sanitising adds no character. */
  lemma SanitizeChars(s: string)
    ensures forall c :: c in Sanitize(s) ==> c in s
  {
    RemoveAllChars(s, " ");
    RemoveAllChars(RemoveAll(s, " "), "%20");
  }

  /** A one-character pattern occurs exactly when that character does. */
  lemma {:induction false} ContainsChar(s: string, c: char)
    ensures Contains(s, [c]) <==> c in s
    decreases |s|
  {
    if s != [] {
      ContainsChar(s[1..], c);
      assert s == [s[0]] + s[1..];
    }
  }

  /**
   * Sanitising twice is not the same as sanitising once: removing one
   * `%20` can bring a new `%20` together.
   */
  lemma SanitizeNotIdempotent()
    ensures Sanitize("%%2020") == "%20"
    ensures Sanitize(Sanitize("%%2020")) == ""
  {
    SanitizeJoinsPercent();
    SanitizePercent20();
  }

  lemma SanitizeJoinsPercent()
    ensures Sanitize("%%2020") == "%20"
  {
    var s := "%%2020";
    ContainsChar(s, ' ');
    assert RemoveAll(s, " ") == s;
    RemovePercent20();
  }

  lemma RemovePercent20()
    ensures RemoveAll("%%2020", "%20") == "%20"
  {
    var s := "%%2020";
    assert s[1] == '%' && "%20"[1] == '2';
    assert s[..3] != "%20" by { assert s[..3][1] != "%20"[1]; }
    assert s[1..] == "%2020";
    assert RemoveAll("%2020", "%20") == RemoveAll("20", "%20") == "20";
    assert RemoveAll(s, "%20") == "%" + RemoveAll("%2020", "%20");
  }

  lemma SanitizePercent20()
    ensures Sanitize("%20") == ""
  {
    var t := "%20";
    ContainsChar(t, ' ');
    assert RemoveAll(t, " ") == t;
    assert t[..3] == "%20" && t[3..] == "";
    assert RemoveAll(t, "%20") == RemoveAll("", "%20") == "";
  }

  /** Whatever surrounds it, `Strip` returns exactly the core between the whitespace runs. */
  lemma {:induction false} StripExact(pre: string, core: string, post: string)
    requires forall i :: 0 <= i < |pre| ==> IsSpace(pre[i])
    requires forall i :: 0 <= i < |post| ==> IsSpace(post[i])
    requires core != [] ==> !IsSpace(core[0]) && !IsSpace(core[|core| - 1])
    ensures Strip(pre + core + post) == core
  {
    if core == [] {
      var s := pre + post;
      assert pre + core + post == s;
      forall i | 0 <= i < |s| ensures IsSpace(s[i]) {
        if i < |pre| {
          assert s[i] == pre[i];
        } else {
          assert s[i] == post[i - |pre|];
        }
      }
      assert s + [] == s;
      LStripSpaces(s, []);
    } else {
      LStripSpaces(pre, core + post);
      assert pre + core + post == pre + (core + post);
      RStripSpaces(core, post);
    }
  }

  lemma {:induction false} LStripSpaces(pre: string, rest: string)
    requires forall i :: 0 <= i < |pre| ==> IsSpace(pre[i])
    requires rest != [] ==> !IsSpace(rest[0])
    ensures LStrip(pre + rest) == rest
    decreases |pre|
  {
    if pre != [] {
      assert (pre + rest)[1..] == pre[1..] + rest;
      LStripSpaces(pre[1..], rest);
    }
  }

  lemma {:induction false} RStripSpaces(rest: string, post: string)
    requires forall i :: 0 <= i < |post| ==> IsSpace(post[i])
    requires rest != [] ==> !IsSpace(rest[|rest| - 1])
    ensures RStrip(rest + post) == rest
    decreases |post|
  {
    if post != [] {
      var post' := post[..|post| - 1];
      assert (rest + post)[..|rest + post| - 1] == rest + post';
      RStripSpaces(rest, post');
    } else {
      assert rest + post == rest;
    }
  }
}
