/** The play log of lib/player.js: the records `saveToM3uPlaylist` and
    `addToReportPlaylist` append, the parser behind `loadPlaylist`, and the
    collision-avoiding file name chosen by `createNewPlaylistFile`. */
module Persistence {
  import opened Wrappers
  import opened Seqs
  import opened PlaylistStore

  const PlaylistsDirectory: string := "playlists"

  /** One logged record: a comment (the submitter, or "submitter - comment" in the
      report log) and the resource path. */
  datatype Record = Record(comment: string, path: Path)

  /** The record `saveToM3uPlaylist` writes for a played item: its path, and a
      comment from which the loader's `#`-stripping gives the submitter back. */
  function PlayRecord(it: Item): (r: Record)
    ensures r.path == it.path
    ensures StripFirstHash("#" + r.comment) == it.username
  {
    Record(it.username, it.path)
  }

  /** The record `addToReportPlaylist` writes for a reported item: its path, and
      a comment made of the reporter, the separator " - " and the report text. */
  function ReportRecord(u: User, comment: string, m: Media): (r: Record)
    ensures r.path == m.path
    ensures |r.comment| == |u| + 3 + |comment|
    ensures r.comment[..|u|] == u && r.comment[|u|..|u| + 3] == " - " && r.comment[|u| + 3..] == comment
  {
    Record(u + " - " + comment, m.path)
  }

  /** The records logged for a sequence of played items, in play order. */
  function PlayRecords(its: seq<Item>): (rs: seq<Record>)
    ensures |rs| == |its|
    ensures forall i :: 0 <= i < |its| ==> rs[i] == PlayRecord(its[i])
  {
    seq(|its|, i requires 0 <= i < |its| => PlayRecord(its[i]))
  }

  /** The lines of a log holding `rs`, assuming the m3u writer emits a `#comment`
      line followed by the path line for each record. */
  function Serialize(rs: seq<Record>): (lines: seq<string>)
    ensures |lines| == 2 * |rs|
    ensures forall i :: 0 <= i < |rs| ==> lines[2 * i] == "#" + rs[i].comment && lines[2 * i + 1] == rs[i].path
  {
    if rs == [] then []
    else ["#" + rs[0].comment, rs[0].path] + Serialize(rs[1..])
  }

  /** `chunk(lines, 2)`: consecutive lines paired as (comment line, path line). A
      trailing line without a partner (such as the empty string after the last
      newline) makes a chunk whose path is undefined; no content has an undefined
      path, so that chunk is dropped here. */
  function Pairs(lines: seq<string>): (r: seq<Record>)
    ensures |r| == |lines| / 2
    ensures forall i :: 0 <= i < |r| ==> r[i] == Record(lines[2 * i], lines[2 * i + 1])
  {
    if |lines| < 2 then []
    else [Record(lines[0], lines[1])] + Pairs(lines[2..])
  }

  /** `s.replace('#', '')`: the first `#`, wherever it is, is removed. */
  function StripFirstHash(s: string): (r: string)
    ensures (forall i :: 0 <= i < |s| ==> s[i] != '#') ==> r == s
  {
    if s == [] then []
    else if s[0] == '#' then s[1..]
    else [s[0]] + StripFirstHash(s[1..])
  }

  /** With the first `#` at index `h`, exactly that character is removed. */
  lemma {:induction false} StripFirstHashAt(s: string, h: nat)
    requires h < |s| && s[h] == '#'
    requires forall j :: 0 <= j < h ==> s[j] != '#'
    ensures StripFirstHash(s) == s[..h] + s[h + 1..]
  {
    if h > 0 {
      var t := s[1..];
      StripFirstHashAt(t, h - 1);
      assert t[..h - 1] == s[1..h] && t[h..] == s[h + 1..];
      assert s[..h] == [s[0]] + s[1..h];
      AppendAssociates([s[0]], s[1..h], s[h + 1..]);
    }
  }

  /** `allContents.find(c => c.path === filePath)`. */
  function Resolve(all: seq<Media>, path: Path): (r: Option<Media>)
    ensures r.Some? ==> r.value in all && r.value.path == path
    ensures r.None? <==> forall j :: 0 <= j < |all| ==> all[j].path != path
  {
    if all == [] then None
    else if all[0].path == path then Some(all[0])
    else Resolve(all[1..], path)
  }

  /** The entry found is the first one with the path. */
  lemma {:induction false} ResolveIsFirst(all: seq<Media>, path: Path)
    requires Resolve(all, path).Some?
    ensures exists i :: 0 <= i < |all| && all[i] == Resolve(all, path).value && forall j :: 0 <= j < i ==> all[j].path != path
    decreases |all|
  {
    if all[0].path != path {
      ResolveIsFirst(all[1..], path);
      var i :| 0 <= i < |all[1..]| && all[1..][i] == Resolve(all, path).value
               && forall j :: 0 <= j < i ==> all[1..][j].path != path;
      assert all[i + 1] == Resolve(all, path).value;
    }
  }

  /** The item one chunk enqueues: none when its path is unknown. */
  function Admit(all: seq<Media>, e: Record): (r: seq<Item>)
    ensures |r| <= 1
  {
    match Resolve(all, e.path)
    case None => []
    case Some(m) => [Tag(m, StripFirstHash(e.comment))]
  }

  /** What `loadPlaylist` enqueues for the chunks `entries`, in file order. */
  function Loaded(entries: seq<Record>, all: seq<Media>): (r: seq<Item>)
    ensures |r| <= |entries|
  {
    if entries == [] then []
    else Loaded(entries[..|entries| - 1], all) + Admit(all, entries[|entries| - 1])
  }

  /** Every loaded item is the registry entry its path resolves to. */
  lemma {:induction false} LoadedResolves(entries: seq<Record>, all: seq<Media>)
    ensures forall i :: 0 <= i < |Loaded(entries, all)| ==>
              Resolve(all, Loaded(entries, all)[i].path) == Some(Media(Loaded(entries, all)[i].id, Loaded(entries, all)[i].path))
  {
    if entries != [] {
      var n := |entries| - 1;
      LoadedResolves(entries[..n], all);
    }
  }

  /** Loading one more chunk adds what that chunk admits. */
  lemma LoadedPrefixStep(entries: seq<Record>, i: nat, all: seq<Media>)
    requires i < |entries|
    ensures Loaded(entries[..i + 1], all) == Loaded(entries[..i], all) + Admit(all, entries[i])
  {
    assert entries[..i + 1][..i] == entries[..i];
  }

  /** A log whose every record resolves, and whose comments are the submitters,
      loads back as exactly the logged items, in order. */
  lemma {:induction false} LoadedAllResolved(entries: seq<Record>, all: seq<Media>, its: seq<Item>)
    requires |entries| == |its|
    requires forall i :: 0 <= i < |its| ==> Resolve(all, entries[i].path) == Some(Media(its[i].id, its[i].path))
    requires forall i :: 0 <= i < |its| ==> StripFirstHash(entries[i].comment) == its[i].username
    ensures Loaded(entries, all) == its
  {
    if entries != [] {
      var n := |entries| - 1;
      var front, served := entries[..n], its[..n];
      LoadedAllResolved(front, all, served);
      var m := Resolve(all, entries[n].path).value;
      assert Admit(all, entries[n]) == [Tag(m, StripFirstHash(entries[n].comment))];
      assert Tag(m, StripFirstHash(entries[n].comment)) == its[n];
      assert Loaded(entries, all) == served + [its[n]];
      SplitLast(its);
    }
  }

  /** Loading distributes over concatenation of chunk lists: file order is kept. */
  lemma {:induction false} LoadedAppend(a: seq<Record>, b: seq<Record>, all: seq<Media>)
    ensures Loaded(a + b, all) == Loaded(a, all) + Loaded(b, all)
    decreases |b|
  {
    if b == [] {
      assert a + b == a;
    } else {
      var n := |b| - 1;
      var ab := a + b;
      assert ab[..|ab| - 1] == a + b[..n];
      assert ab[|ab| - 1] == b[n];
      LoadedAppend(a, b[..n], all);
      AppendAssociates(Loaded(a, all), Loaded(b[..n], all), Admit(all, b[n]));
    }
  }

  /** Records whose path no longer resolves are skipped; the others keep their order. */
  lemma LoadedSkipsUnknown(a: seq<Record>, e: Record, b: seq<Record>, all: seq<Media>)
    requires Resolve(all, e.path).None?
    ensures Loaded(a + [e] + b, all) == Loaded(a + b, all)
  {
    var one := [e];
    assert Loaded(one, all) == [] by {
      assert one[..0] == [];
    }
    LoadedAppend(a + one, b, all);
    LoadedAppend(a, one, all);
    LoadedAppend(a, b, all);
    assert Loaded(a, all) + Loaded(one, all) == Loaded(a, all);
  }

  /** Log round trip: the items appended to a play log come back, attributed to
      their submitters and in play order, when the log is loaded against a registry
      in which each item's path leads back to it. The trailing empty line that the
      final newline leaves after splitting is harmless. The file is split on
      newlines and no field is escaped, so a submitter or path holding a newline
      would be cut across lines; such items are excluded. */
  lemma LoadRoundTrip(its: seq<Item>, all: seq<Media>)
    requires forall i :: 0 <= i < |its| ==> '\n' !in its[i].username && '\n' !in its[i].path
    requires forall i :: 0 <= i < |its| ==> Resolve(all, its[i].path) == Some(Media(its[i].id, its[i].path))
    ensures Loaded(Pairs(Serialize(PlayRecords(its))), all) == its
    ensures Loaded(Pairs(Serialize(PlayRecords(its)) + [""]), all) == its
  {
    var rs := PlayRecords(its);
    var lines := Serialize(rs);
    var entries := Pairs(lines);
    var entries' := Pairs(lines + [""]);
    forall i | 0 <= i < |its|
      ensures entries[i] == entries'[i] == Record("#" + its[i].username, its[i].path)
      ensures StripFirstHash(entries[i].comment) == its[i].username
    {
      assert (lines + [""])[2 * i] == lines[2 * i];
      assert (lines + [""])[2 * i + 1] == lines[2 * i + 1];
    }
    LoadedAllResolved(entries, all, its);
    LoadedAllResolved(entries', all, its);
  }

  // ---------------------------------------------------------------------------
  // Choosing the day's file name.

  function Digit(d: nat): char
    requires d < 10
  {
    "0123456789"[d]
  }

  /** The decimal form of `n`, as a template literal prints it. */
  function DecimalString(n: nat): (r: string)
    ensures |r| >= 1
    ensures n >= 10 ==> |r| >= 2
    decreases n
  {
    if n < 10 then [Digit(n)] else DecimalString(n / 10) + [Digit(n % 10)]
  }

  lemma {:induction false} DecimalStringInjective(a: nat, b: nat)
    requires DecimalString(a) == DecimalString(b)
    ensures a == b
    decreases a
  {
    var s := DecimalString(a);
    if a < 10 && b < 10 {
      assert s[0] == Digit(a) == Digit(b);
    } else if a >= 10 && b >= 10 {
      assert Digit(a % 10) == s[|s| - 1] == Digit(b % 10);
      assert DecimalString(a / 10) == s[..|s| - 1] == DecimalString(b / 10);
      DecimalStringInjective(a / 10, b / 10);
    }
  }

  /** `today`, or `today-k` on the k-th retry. */
  function CandidateName(today: string, tries: nat): (r: string)
    ensures |r| >= |today| && r[..|today|] == today
    ensures tries == 0 <==> r == today
    ensures tries > 0 ==> r[|today|] == '-' && r[|today| + 1..] == DecimalString(tries)
  {
    if tries == 0 then today else today + "-" + DecimalString(tries)
  }

  /** The file the probe tests on the given try. */
  function CandidatePath(today: string, tries: nat): (r: Path)
    ensures var name := CandidateName(today, tries);
            |r| == 10 + |name| + 4
            && r[..10] == "playlists/" && r[10..10 + |name|] == name && r[10 + |name|..] == ".m3u"
  {
    PlaylistsDirectory + "/" + CandidateName(today, tries) + ".m3u"
  }

  /** Different tries test different files. */
  lemma CandidatePathInjective(today: string, a: nat, b: nat)
    requires CandidatePath(today, a) == CandidatePath(today, b)
    ensures a == b
  {
    var pre := PlaylistsDirectory + "/";
    var x, y := CandidateName(today, a), CandidateName(today, b);
    var p := CandidatePath(today, a);
    assert |x| == |y|;
    assert x == p[|pre|..|pre| + |x|];
    assert y == p[|pre|..|pre| + |y|];
    if a != 0 && b != 0 {
      assert DecimalString(a) == x[|today| + 1..];
      assert DecimalString(b) == y[|today| + 1..];
      DecimalStringInjective(a, b);
    }
  }

  /** The files tested by the first `n` tries. */
  function CandidatesBelow(today: string, n: nat): set<Path>
  {
    set j | 0 <= j < n :: CandidatePath(today, j)
  }

  /** One more try adds its own file to the tested set, and that file is new. */
  lemma CandidatesBelowStep(today: string, n: nat)
    ensures CandidatesBelow(today, n + 1) == CandidatesBelow(today, n) + {CandidatePath(today, n)}
    ensures CandidatePath(today, n) !in CandidatesBelow(today, n)
    ensures |CandidatesBelow(today, n + 1)| == |CandidatesBelow(today, n)| + 1
  {
    var below, p := CandidatesBelow(today, n), CandidatePath(today, n);
    if p in below {
      var j :| 0 <= j < n && CandidatePath(today, j) == p;
      CandidatePathInjective(today, j, n);
    }
    assert CandidatesBelow(today, n + 1) == below + {p};
  }

  /** The first `n` tries test `n` different files. */
  lemma {:induction false} CandidatesBelowCount(today: string, n: nat)
    ensures |CandidatesBelow(today, n)| == n
  {
    if n == 0 {
      assert CandidatesBelow(today, n) == {};
    } else {
      CandidatesBelowCount(today, n - 1);
      CandidatesBelowStep(today, n - 1);
    }
  }

  /** If the first `n` tries all hit existing files, at least `n` files exist. */
  lemma ExistingBound(today: string, existing: set<Path>, n: nat)
    requires forall j :: 0 <= j < n ==> CandidatePath(today, j) in existing
    ensures n <= |existing|
  {
    var below := CandidatesBelow(today, n);
    CandidatesBelowCount(today, n);
    assert existing == below + (existing - below);
  }

  /** The recursion of `createNewPlaylistFile`: the first try, from `tries` on,
      whose file does not exist. It terminates because `existing` is finite and
      every try tests a different file. */
  function Probe(today: string, existing: set<Path>, tries: nat): (k: nat)
    requires forall j :: 0 <= j < tries ==> CandidatePath(today, j) in existing
    ensures tries <= k
    ensures CandidatePath(today, k) !in existing
    ensures forall j :: 0 <= j < k ==> CandidatePath(today, j) in existing
    decreases |existing| - tries
  {
    if CandidatePath(today, tries) in existing then
      ExistingBound(today, existing, tries + 1);
      Probe(today, existing, tries + 1)
    else tries
  }

  /** An error thrown by the file system, with its `code` and `message`. */
  datatype FsError = FsError(code: string, message: string)

  /** `createNewPlaylistFile()`: `mkdir` is the outcome of creating the playlists
      directory (None when it was created), `existing` the files that exist. */
  function CreateNewPlaylistFile(mkdir: Option<FsError>, today: string, existing: set<Path>): (r: Result<Path, string>)
    ensures r.Failure? <==> mkdir.Some? && mkdir.value.code != "EEXIST"
    ensures r.Failure? ==> r.error == "Unhandled error " + mkdir.value.message
    ensures r.Success? ==> r.value !in existing
    ensures r.Success? ==>
              exists k: nat :: r.value == CandidatePath(today, k) && forall j :: 0 <= j < k ==> CandidatePath(today, j) in existing
  {
    if mkdir.Some? && mkdir.value.code != "EEXIST" then
      Failure("Unhandled error " + mkdir.value.message)
    else
      Success(CandidatePath(today, Probe(today, existing, 0)))
  }

  /** A free day name is used as it is; a second start on the same day gets `-1`. */
  lemma SecondStartGetsSuffix(today: string)
    ensures CreateNewPlaylistFile(None, today, {}) == Success("playlists/" + today + ".m3u")
    ensures CreateNewPlaylistFile(None, today, {CandidatePath(today, 0)}) == Success("playlists/" + today + "-1.m3u")
  {
    assert PlaylistsDirectory + "/" == "playlists/";
    assert Probe(today, {}, 0) == 0;
    assert CandidatePath(today, 0) == "playlists/" + today + ".m3u";
    assert CandidatePath(today, 1) !in {CandidatePath(today, 0)} by {
      if CandidatePath(today, 1) == CandidatePath(today, 0) {
        CandidatePathInjective(today, 1, 0);
      }
    }
    assert Probe(today, {CandidatePath(today, 0)}, 0) == 1;
    assert DecimalString(1) == "1";
    assert CandidatePath(today, 1) == "playlists/" + today + "-1.m3u";
  }
}
