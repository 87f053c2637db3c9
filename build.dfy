/** The two string helpers of the static-site build script: the `relative`
    template filter, which turns a site path into a URL relative to the page
    being rendered, and `bust`, which rewrites every cache-busting marker in a
    written file to the build's version. */
module Build {
  import opened Common

  const Slash: char := '/'

  // ---------------------------------------------------------------------
  // str.split("/") and "/".join(...)
  // ---------------------------------------------------------------------

  /** Python's `s.split("/")`: the pieces between slashes, always at least one. */
  function Split(s: string): (parts: seq<string>)
    ensures |parts| >= 1
    ensures forall i :: 0 <= i < |parts| ==> Slash !in parts[i]
  {
    if s == [] then [[]]
    else
      var rest := Split(s[1..]);
      if s[0] == Slash then [[]] + rest
      else [[s[0]] + rest[0]] + rest[1..]
  }

  /** Python's `"/".join(parts)`. */
  function Join(parts: seq<string>): string
  {
    if parts == [] then []
    else if |parts| == 1 then parts[0]
    else parts[0] + [Slash] + Join(parts[1..])
  }

  function CountSlashes(s: string): nat
  {
    if s == [] then 0 else (if s[0] == Slash then 1 else 0) + CountSlashes(s[1..])
  }

  /** Joining the pieces of a split gives back the original string. */
  lemma {:induction false} JoinSplit(s: string)
    ensures Join(Split(s)) == s
  {
    if s != [] {
      var rest := Split(s[1..]);
      JoinSplit(s[1..]);
      if s[0] != Slash && |rest| > 1 {
        assert Join(rest) == rest[0] + [Slash] + Join(rest[1..]);
      }
    }
  }

  /** Splitting a join of slash-free pieces gives back the pieces. */
  lemma {:induction false} SplitJoin(parts: seq<string>)
    requires |parts| >= 1
    requires forall i :: 0 <= i < |parts| ==> Slash !in parts[i]
    ensures Split(Join(parts)) == parts
  {
    if |parts| == 1 {
      SplitPlain(parts[0]);
    } else {
      SplitJoin(parts[1..]);
      SplitPrefix(parts[0], Join(parts[1..]));
      assert [parts[0]] + parts[1..] == parts;
    }
  }

  lemma {:induction false} SplitPlain(s: string)
    requires Slash !in s
    ensures Split(s) == [s]
  {
    if s != [] {
      SplitPlain(s[1..]);
      assert [s[0]] + s[1..] == s;
    }
  }

  lemma {:induction false} SplitPrefix(p: string, t: string)
    requires Slash !in p
    ensures Split(p + [Slash] + t) == [p] + Split(t)
  {
    if p != [] {
      assert (p + [Slash] + t)[1..] == p[1..] + [Slash] + t;
      SplitPrefix(p[1..], t);
      assert [p[0]] + p[1..] == p;
    } else {
      assert (p + [Slash] + t)[1..] == t;
    }
  }

  /** `len(s.split("/")) - 1` counts the slashes of `s`. */
  lemma {:induction false} SplitLength(s: string)
    ensures |Split(s)| == CountSlashes(s) + 1
  {
    if s != [] {
      SplitLength(s[1..]);
    }
  }

  // ---------------------------------------------------------------------
  // relative (build.py)
  // ---------------------------------------------------------------------

  /** `".." * n` joined by slashes, as a string: "../" repeated n times. */
  function Repeat(s: string, n: nat): string
  {
    if n == 0 then [] else s + Repeat(s, n - 1)
  }

  /** The `relative` filter: one ".." per level of the current page, followed
      by the path's own pieces, all joined by "/". */
  function Relative(currentPage: string, path: string): string
  {
    var depth := |Split(currentPage)| - 1;
    Join(seq(depth, _ => "..") + Split(path))
  }

  lemma {:induction false} JoinDots(d: nat, parts: seq<string>)
    requires |parts| >= 1
    ensures Join(seq(d, _ => "..") + parts) == Repeat("../", d) + Join(parts)
  {
    if d > 0 {
      var all := seq(d, _ => "..") + parts;
      assert all[1..] == seq(d - 1, _ => "..") + parts;
      JoinDots(d - 1, parts);
    } else {
      assert seq(d, _ => "..") + parts == parts;
    }
  }

  /** The result climbs one directory per slash of the current page and then
      spells out the path unchanged. */
  lemma RelativeClimbs(currentPage: string, path: string)
    ensures Relative(currentPage, path) == Repeat("../", CountSlashes(currentPage)) + path
  {
    SplitLength(currentPage);
    JoinDots(CountSlashes(currentPage), Split(path));
    JoinSplit(path);
  }

  /** For a top-level page the path is returned as it is. */
  lemma RelativeTopLevel(currentPage: string, path: string)
    requires Slash !in currentPage
    ensures Relative(currentPage, path) == path
  {
    RelativeClimbs(currentPage, path);
    NoSlashCount(currentPage);
  }

  lemma {:induction false} NoSlashCount(s: string)
    requires Slash !in s
    ensures CountSlashes(s) == 0
  {
    if s != [] {
      NoSlashCount(s[1..]);
    }
  }

  /** Whatever the page, the result ends with the path. */
  lemma RelativeEndsWithPath(currentPage: string, path: string)
    ensures EndsWith(Relative(currentPage, path), path)
  {
    RelativeClimbs(currentPage, path);
  }

  /** A page one directory down links one level up. */
  lemma RelativeOneLevel(dir: string, file: string, path: string)
    requires Slash !in dir && Slash !in file
    ensures Relative(dir + [Slash] + file, path) == "../" + path
  {
    var page := dir + [Slash] + file;
    NoSlashCount(dir);
    NoSlashCount(file);
    CountAppend(dir, [Slash] + file);
    CountAppend([Slash], file);
    assert page == dir + ([Slash] + file);
    assert CountSlashes([Slash]) == 1;
    RelativeClimbs(page, path);
    assert Repeat("../", 1) == "../" + Repeat("../", 0);
  }

  /** An example report page `examples/<name>.html` links one level up. */
  lemma RelativeFromExamplePage(name: string, path: string)
    requires Slash !in name
    ensures Relative("examples/" + name + ".html", path) == "../" + path
  {
    var dir := "examples";
    var file := name + ".html";
    assert "examples/" + name + ".html" == dir + [Slash] + file;
    assert Slash !in dir;
    assert Slash !in file by {
      assert file[|name|..] == ".html";
    }
    RelativeOneLevel(dir, file, path);
  }

  lemma {:induction false} CountAppend(a: string, b: string)
    ensures CountSlashes(a + b) == CountSlashes(a) + CountSlashes(b)
  {
    if a != [] {
      assert (a + b)[1..] == a[1..] + b;
      CountAppend(a[1..], b);
    } else {
      assert a + b == b;
    }
  }

  // ---------------------------------------------------------------------
  // bust (build.py): re.sub(r"\?__skrub_[a-zA-Z0-9]+__", f"?__skrub_{VERSION}__", text)
  // ---------------------------------------------------------------------

  const MarkerHead: string := "?__skrub_"
  const MarkerTail: string := "__"

  predicate IsAlnum(c: char)
  {
    'a' <= c <= 'z' || 'A' <= c <= 'Z' || '0' <= c <= '9'
  }

  predicate AllAlnum(s: string)
  {
    forall i :: 0 <= i < |s| ==> IsAlnum(s[i])
  }

  /** Length of the longest ASCII-alphanumeric prefix: what `[a-zA-Z0-9]+`
      consumes greedily. */
  function AlnumRun(s: string): (n: nat)
    ensures n <= |s|
    ensures AllAlnum(s[..n])
    ensures n < |s| ==> !IsAlnum(s[n])
  {
    if s == [] || !IsAlnum(s[0]) then 0
    else
      var k := AlnumRun(s[1..]);
      assert s[..k + 1] == [s[0]] + s[1..][..k];
      k + 1
  }

  /** The length of the marker that starts at `s[0]`, if one does. Backtracking
      cannot help the regular expression: the character after the greedy run
      is not alphanumeric, so a shorter run would be followed by a letter or
      digit where "__" is needed. */
  function MarkerAt(s: string): (r: Option<nat>)
    ensures r.Some? ==> 12 <= r.value <= |s|
    ensures r.Some? ==> s[..9] == MarkerHead && s[r.value - 2..r.value] == MarkerTail
    ensures r.Some? ==> AllAlnum(s[9..r.value - 2])
    ensures |s| > 0 && s[0] != '?' ==> r.None?
  {
    if |s| >= 9 && s[..9] == MarkerHead then
      var k := AlnumRun(s[9..]);
      if k > 0 && 9 + k + 2 <= |s| && s[9 + k..9 + k + 2] == MarkerTail then
        assert s[9..9 + k] == s[9..][..k];
        Some(9 + k + 2)
      else None
    else None
  }

  /** `bust(text)` with VERSION passed in: every marker, scanned left to right
      without overlap, becomes the marker of `version`; every other character
      is copied. */
  function Bust(text: string, version: string): string
    decreases |text|
  {
    if text == [] then []
    else
      match MarkerAt(text)
      case Some(n) => MarkerHead + version + MarkerTail + Bust(text[n..], version)
      case None => [text[0]] + Bust(text[1..], version)
  }

  /** What `secrets.token_hex()[:4]` provides: a non-empty alphanumeric run. */
  predicate ValidVersion(version: string)
  {
    |version| > 0 && AllAlnum(version)
  }

  /** A greedy run stops exactly at the end of an alphanumeric word followed by
      something else. */
  lemma {:induction false} AlnumRunOfWord(a: string, rest: string)
    requires AllAlnum(a)
    requires |rest| > 0 ==> !IsAlnum(rest[0])
    ensures AlnumRun(a + rest) == |a|
  {
    if a == [] {
      assert a + rest == rest;
    } else {
      assert (a + rest)[1..] == a[1..] + rest;
      AlnumRunOfWord(a[1..], rest);
    }
  }

  /** Any non-empty alphanumeric word between the two halves is a marker. */
  lemma MarkerAtWord(a: string, rest: string)
    requires |a| > 0 && AllAlnum(a)
    ensures MarkerAt(MarkerHead + a + MarkerTail + rest) == Some(|a| + 11)
  {
    var s := MarkerHead + a + MarkerTail + rest;
    assert s[..9] == MarkerHead;
    assert s[9..] == a + (MarkerTail + rest);
    AlnumRunOfWord(a, MarkerTail + rest);
    assert s[9 + |a|..9 + |a| + 2] == MarkerTail;
  }

  /** Text in which no marker starts anywhere comes back unchanged. */
  lemma {:induction false} BustWithoutMarker(text: string, version: string)
    requires forall i :: 0 <= i < |text| ==> MarkerAt(text[i..]).None?
    ensures Bust(text, version) == text
    decreases |text|
  {
    if text != [] {
      assert text[0..] == text;
      forall i | 0 <= i < |text[1..]|
        ensures MarkerAt(text[1..][i..]).None?
      {
        assert text[1..][i..] == text[i + 1..];
      }
      BustWithoutMarker(text[1..], version);
    }
  }

  /** A marker, whatever version it carries, is rewritten to `version`. */
  lemma BustRewritesMarker(old_version: string, rest: string, version: string)
    requires |old_version| > 0 && AllAlnum(old_version)
    ensures Bust(MarkerHead + old_version + MarkerTail + rest, version)
         == MarkerHead + version + MarkerTail + Bust(rest, version)
  {
    var s := MarkerHead + old_version + MarkerTail + rest;
    MarkerAtWord(old_version, rest);
    assert s[|old_version| + 11..] == rest;
  }

  /** No marker starts anywhere in `p` when `t` follows it (a marker that
      starts in `p` may run on into `t`). */
  predicate NoMarkerStartsIn(p: string, t: string)
  {
    forall i :: 0 <= i < |p| ==> MarkerAt((p + t)[i..]).None?
  }

  /** Text in which no marker starts before `t` is copied through unchanged,
      whatever `?` it holds; `t` is busted on its own. */
  lemma {:induction false} BustFrame(p: string, t: string, version: string)
    requires NoMarkerStartsIn(p, t)
    ensures Bust(p + t, version) == p + Bust(t, version)
  {
    if p != [] {
      assert (p + t)[0..] == p + t;
      assert (p + t)[1..] == p[1..] + t;
      forall i | 0 <= i < |p[1..]|
        ensures MarkerAt((p[1..] + t)[i..]).None?
      {
        assert (p[1..] + t)[i..] == (p + t)[i + 1..];
      }
      assert NoMarkerStartsIn(p[1..], t);
      BustFrame(p[1..], t, version);
    } else {
      assert p + t == t;
    }
  }

  /** No marker starts inside text without '?'. */
  lemma PlainStartsNoMarker(p: string, t: string)
    requires '?' !in p
    ensures NoMarkerStartsIn(p, t)
  {
    forall i | 0 <= i < |p|
      ensures MarkerAt((p + t)[i..]).None?
    {
      assert (p + t)[i..][0] == p[i];
    }
  }

  /** Text without any '?' before `t` is copied through unchanged. */
  lemma BustPlainPrefix(p: string, t: string, version: string)
    requires '?' !in p
    ensures Bust(p + t, version) == p + Bust(t, version)
  {
    PlainStartsNoMarker(p, t);
    BustFrame(p, t, version);
  }

  /** Bust never invents a '?'-free prefix: one in the output was in the input. */
  lemma {:induction false} BustKeepsPlainPrefix(u: string, m: string, version: string)
    requires '?' !in m
    requires m <= Bust(u, version)
    ensures m <= u
    decreases |u|
  {
    assert u == [] ==> Bust(u, version) == [];
    assert u != [] && MarkerAt(u).Some? ==> Bust(u, version)[0] == '?';
    if |m| > 0 && u != [] && MarkerAt(u).None? {
      var b := Bust(u[1..], version);
      assert Bust(u, version) == [u[0]] + b;
      assert m[1..] <= b;
      BustKeepsPlainPrefix(u[1..], m[1..], version);
      assert m == [u[0]] + m[1..];
    }
  }

  /** A marker found by MarkerAt is the head, an alphanumeric word, the tail. */
  lemma MarkerShape(s: string)
    requires MarkerAt(s).Some?
    ensures var n := MarkerAt(s).value;
      s[..n] == MarkerHead + s[9..n - 2] + MarkerTail
  {
    var n := MarkerAt(s).value;
    assert s[..n] == s[..9] + s[9..n - 2] + s[n - 2..n];
  }

  lemma WordHasNoQuestionMark(a: string)
    requires AllAlnum(a)
    ensures '?' !in "__skrub_" + a + MarkerTail
  {
    var m := "__skrub_" + a + MarkerTail;
    forall i | 0 <= i < |m| ensures m[i] != '?' {
      if 8 <= i < 8 + |a| {
        assert m[i] == a[i - 8];
      }
    }
  }

  /** A marker right after a '?' leaves the rest of it, without '?', behind. */
  lemma MarkerAfterQuestion(b: string) returns (a: string)
    requires MarkerAt(['?'] + b).Some?
    ensures |a| > 0 && AllAlnum(a)
    ensures "__skrub_" + a + MarkerTail <= b
  {
    var s := ['?'] + b;
    var n := MarkerAt(s).value;
    a := s[9..n - 2];
    var m := "__skrub_" + a + MarkerTail;
    MarkerShape(s);
    assert MarkerHead + a + MarkerTail == ['?'] + m;
    assert s[..n] == ['?'] + b[..n - 1];
    assert (['?'] + m)[1..] == m;
    assert (['?'] + b[..n - 1])[1..] == b[..n - 1];
  }

  /** A marker's remainder found in busted text was already in the text, so
      the marker was there too. */
  lemma MarkerKeptFromInput(t: string, a: string, version: string)
    requires |a| > 0 && AllAlnum(a)
    requires "__skrub_" + a + MarkerTail <= Bust(t, version)
    ensures MarkerAt(['?'] + t).Some?
  {
    var m := "__skrub_" + a + MarkerTail;
    WordHasNoQuestionMark(a);
    BustKeepsPlainPrefix(t, m, version);
    var rest := t[|m|..];
    assert t == m + rest;
    assert ['?'] + t == MarkerHead + a + MarkerTail + rest;
    MarkerAtWord(a, rest);
  }

  /** Rewriting never creates a marker right after a '?' that had none. */
  lemma BustCreatesNoMarker(t: string, version: string)
    ensures MarkerAt(['?'] + t).None? ==> MarkerAt(['?'] + Bust(t, version)).None?
  {
    if MarkerAt(['?'] + Bust(t, version)).Some? {
      var a := MarkerAfterQuestion(Bust(t, version));
      MarkerKeptFromInput(t, a, version);
    }
  }

  /** Busting twice gives the same text as busting once. */
  lemma {:induction false} BustIdempotent(text: string, version: string)
    requires ValidVersion(version)
    ensures Bust(Bust(text, version), version) == Bust(text, version)
    decreases |text|
  {
    if text != [] {
      match MarkerAt(text)
      case Some(n) =>
        BustIdempotent(text[n..], version);
        BustRewritesMarker(version, Bust(text[n..], version), version);
      case None =>
        var t := text[1..];
        BustIdempotent(t, version);
        if text[0] == '?' {
          assert text == ['?'] + t;
          BustCreatesNoMarker(t, version);
        }
        var b := Bust(text, version);
        assert b == [text[0]] + Bust(t, version);
        assert b[1..] == Bust(t, version);
    }
  }

  /** Text in which no marker starts, followed by a single marker: only the
      marker's version changes. */
  lemma BustOneMarker(p: string, old_version: string, version: string)
    requires |old_version| > 0 && AllAlnum(old_version)
    requires NoMarkerStartsIn(p, MarkerHead + old_version + MarkerTail)
    ensures Bust(p + (MarkerHead + old_version + MarkerTail), version) == p + (MarkerHead + version + MarkerTail)
  {
    var marker := MarkerHead + old_version + MarkerTail;
    BustFrame(p, marker, version);
    assert marker == marker + [];
    BustRewritesMarker(old_version, [], version);
    assert Bust(marker, version) == MarkerHead + version + MarkerTail + Bust([], version);
  }

  /** The same, for a prefix without '?'. */
  lemma BustPlainOneMarker(p: string, old_version: string, version: string)
    requires '?' !in p
    requires |old_version| > 0 && AllAlnum(old_version)
    ensures Bust(p + (MarkerHead + old_version + MarkerTail), version) == p + (MarkerHead + version + MarkerTail)
  {
    PlainStartsNoMarker(p, MarkerHead + old_version + MarkerTail);
    BustOneMarker(p, old_version, version);
  }

  /** The worker script URL the page loads, with its cache-busting marker. */
  const WorkerScript: string := "skrub-worker.js"
  const ShippedVersion: string := "ef40"
  const WorkerUrl: string := WorkerScript + MarkerHead + ShippedVersion + MarkerTail

  /** The script name holds no '?', and the shipped version is a word. */
  lemma WorkerUrlParts()
    ensures WorkerUrl == WorkerScript + (MarkerHead + ShippedVersion + MarkerTail)
    ensures '?' !in WorkerScript
    ensures |ShippedVersion| > 0 && AllAlnum(ShippedVersion)
  {
    forall i | 0 <= i < |WorkerScript|
      ensures WorkerScript[i] != '?'
    {
    }
  }

  /** The worker script URL is rewritten to the build's version. */
  lemma WorkerUrlBusted(version: string)
    ensures Bust(WorkerUrl, version) == WorkerScript + MarkerHead + version + MarkerTail
  {
    WorkerUrlParts();
    BustPlainOneMarker(WorkerScript, ShippedVersion, version);
  }
}
