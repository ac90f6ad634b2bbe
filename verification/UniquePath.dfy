/**
 Free names for incoming targets: `find_extension_start`, `find_unique_path` (crates/core/src/util.rs) and the
 choice between the original and the free name in `get_unique_paths` (crates/core/src/protocol/manifest.rs).
 A directory is the finite set of names in it.
 */
module UniquePath {
  import opened Wrappers
  import opened CrashSafety
  import opened Staging

  function RFind(s: string, c: char): (r: Option<nat>)
    ensures r.Some? ==> r.value < |s| && s[r.value] == c && c !in s[r.value + 1..]
    ensures r.None? ==> c !in s
  {
    if s == [] then None
    else if s[|s| - 1] == c then Some(|s| - 1)
    else
      assert s == s[..|s| - 1] + [s[|s| - 1]];
      var r := RFind(s[..|s| - 1], c);
      assert r.Some? ==> s[r.value + 1..] == s[..|s| - 1][r.value + 1..] + [s[|s| - 1]];
      r
  }

  function LowerChar(c: char): char {
    if 'A' <= c <= 'Z' then c - 'A' + 'a' else c
  }

  function Lower(s: string): string {
    seq(|s|, i requires 0 <= i < |s| => LowerChar(s[i]))
  }

  /** The bytes of a name in UTF-8, which is what the code measures. */
  function Utf8Size(s: string): nat {
    if s == [] then 0
    else
      var c := s[0] as int;
      (if c < 0x80 then 1 else if c < 0x800 then 2 else if c < 0x10000 then 3 else 4) + Utf8Size(s[1..])
  }

  /** Lower case is ASCII lower case: it maps the capital letters and nothing else. */
  lemma LowerIs(s: string)
    ensures Lower("ABCDEFGHIJKLMNOPQRSTUVWXYZ") == "abcdefghijklmnopqrstuvwxyz"
    ensures (forall c :: c in s ==> c !in "ABCDEFGHIJKLMNOPQRSTUVWXYZ") ==> Lower(s) == s
  {
    var capitals := "ABCDEFGHIJKLMNOPQRSTUVWXYZ";
    assert forall i :: 0 <= i < 26 ==> capitals[i] == 'A' + i as char;
    forall i | 0 <= i < |s|
      ensures 'A' <= s[i] <= 'Z' ==> s[i] in capitals
    {
      if 'A' <= s[i] <= 'Z' { assert capitals[(s[i] - 'A') as int] == s[i]; }
    }
  }

  /** One character of each size: "A", a letter with an accent, the euro sign, an emoji. */
  lemma Utf8Sizes()
    ensures Utf8Size("A") == 1 && Utf8Size("\U{E9}") == 2 && Utf8Size("\U{20AC}") == 3 && Utf8Size("\U{1F600}") == 4
  {
    assert "A"[1..] == "" && "\U{E9}"[1..] == "" && "\U{20AC}"[1..] == "" && "\U{1F600}"[1..] == "";
  }

  const COMMON_SUFFIXES: seq<string> := ["bz", "bz2", "gz", "lz", "lzma", "lzo", "xz", "z", "zst"]

  predicate Compressed(suffix: string) {
    Lower(suffix) in COMMON_SUFFIXES
  }

  /** The stem is cut at the last dot, or at the one before it for a compressed archive such as `.tar.gz`. */
  function ExtensionStart(name: string): (start: nat)
    ensures start <= |name|
    ensures start < |name| ==> name[start] == '.'
    ensures start == |name| ==> name == [] || '.' !in name[1..]
  {
    var lastDot := RFind(name, '.');
    if lastDot.None? || lastDot.value == 0 then |name|
    else
      var last := lastDot.value;
      var penultimate := RFind(name[..last], '.');
      if penultimate.None? then last
      else
        var middle := Utf8Size(name[penultimate.value..last]);
        if Compressed(name[last + 1..]) && 1 < middle <= 5 then penultimate.value else last
  }

  lemma RFindAt(a: string, c: char, b: string)
    requires c !in b
    ensures RFind(a + [c] + b, c) == Some(|a|)
  {
    var s := a + [c] + b;
    assert s[|a|] == c;
    assert s[|a| + 1..] == b;
  }

  /** A name without a dot, or with only a leading one, has no extension; one dot inside starts it. */
  lemma PlainExtension(stem: string, suffix: string)
    requires '.' !in stem && '.' !in suffix
    ensures ExtensionStart(stem) == |stem|
    ensures var name := stem + "." + suffix; ExtensionStart(name) == if stem == "" then |name| else |stem|
  {
  }

  lemma TwoDots(name: string, last: nat, penultimate: nat)
    requires RFind(name, '.') == Some(last) && RFind(name[..last], '.') == Some(penultimate)
    ensures last > 0
    ensures ExtensionStart(name) ==
              if Compressed(name[last + 1..]) && 1 < Utf8Size(name[penultimate..last]) <= 5 then penultimate
              else last
  {
    hide RFind, Compressed, Utf8Size;
  }

  lemma CutAtDot(a: string, b: string)
    ensures var s := a + "." + b;
            s == a + ['.'] + b && s[..|a|] == a && s[|a| + 1..] == b && s[|a|..] == "." + b
    ensures forall c: string :: (a + "." + b + c)[|a|..|a| + 1 + |b|] == "." + b
  {
  }

  lemma DotSize(s: string)
    ensures Utf8Size("." + s) == 1 + Utf8Size(s)
  {
    assert ("." + s)[1..] == s;
  }

  /**
   With two dots or more: a known compression suffix, in any case, behind a segment of one to four bytes takes that
   segment with it; any other name is cut at its last dot.
   */
  lemma ArchiveExtension(stem: string, middle: string, suffix: string)
    requires '.' !in middle && '.' !in suffix
    ensures var name := stem + "." + middle + "." + suffix;
            ExtensionStart(name) ==
              if Lower(suffix) in ["bz", "bz2", "gz", "lz", "lzma", "lzo", "xz", "z", "zst"]
                 && 1 <= Utf8Size(middle) <= 4
              then |stem| else |stem| + 1 + |middle|
  {
    var front := stem + "." + middle;
    CutAtDot(front, suffix);
    CutAtDot(stem, middle);
    RFindAt(front, '.', suffix);
    RFindAt(stem, '.', middle);
    DotSize(middle);
    TwoDots(front + "." + suffix, |front|, |stem|);
    hide *;
  }

  /** Upper case counts, and three letters of two bytes are a segment too long. */
  lemma TarGz()
    ensures ExtensionStart("a.tar.gz") == 1 && ExtensionStart("A.TAR.GZ") == 1 && ExtensionStart("a.tar.zip") == 5
    ensures ExtensionStart("a.\U{E9}\U{E9}\U{E9}.gz") == 5
  {
    Spelled();
    SpelledWide();
    hide *;
    ArchiveExtension("a", "tar", "gz");
    ArchiveExtension("A", "TAR", "GZ");
    ArchiveExtension("a", "tar", "zip");
    ArchiveExtension("a", "\U{E9}\U{E9}\U{E9}", "gz");
  }

  lemma SpelledWide()
    ensures "a" + "." + "\U{E9}\U{E9}\U{E9}" + "." + "gz" == "a.\U{E9}\U{E9}\U{E9}.gz"
    ensures |"\U{E9}\U{E9}\U{E9}"| == 3 && '.' !in "\U{E9}\U{E9}\U{E9}"
    ensures Utf8Size("\U{E9}\U{E9}\U{E9}") == 6
  {
    var e := "\U{E9}";
    assert "\U{E9}\U{E9}\U{E9}"[1..] == "\U{E9}\U{E9}" && "\U{E9}\U{E9}"[1..] == e && e[1..] == "";
  }

  lemma Spelled()
    ensures Lower("gz") == "gz" && Lower("GZ") == "gz" && Lower("zip") == "zip"
    ensures "a" + "." + "tar" + "." + "gz" == "a.tar.gz" && "A" + "." + "TAR" + "." + "GZ" == "A.TAR.GZ"
    ensures "a" + "." + "tar" + "." + "zip" == "a.tar.zip" && |"a"| == |"A"| == 1 && |"tar"| == |"TAR"| == 3
    ensures Utf8Size("tar") == Utf8Size("TAR") == 3 && '.' !in "tar" && '.' !in "TAR"
    ensures '.' !in "gz" && '.' !in "GZ" && '.' !in "zip"
    ensures "gz" in ["bz", "bz2", "gz", "lz", "lzma", "lzo", "xz", "z", "zst"]
    ensures "zip" !in ["bz", "bz2", "gz", "lz", "lzma", "lzo", "xz", "z", "zst"]
  {
    assert "tar"[1..] == "ar" && "ar"[1..] == "r" && "r"[1..] == "";
    assert "TAR"[1..] == "AR" && "AR"[1..] == "R" && "R"[1..] == "";
  }

  function Decimal(n: nat): string {
    if n < 10 then ["0123456789"[n]] else Decimal(n / 10) + ["0123456789"[n % 10]]
  }

  function DigitValue(c: char): nat {
    if '0' <= c <= '9' then (c - '0') as int else 0
  }

  function Parse(s: string): nat {
    if s == [] then 0 else 10 * Parse(s[..|s| - 1]) + DigitValue(s[|s| - 1])
  }

  /** The digits read as the number, and the first is not a zero in front of others. */
  lemma {:induction false} ParseDecimal(n: nat)
    ensures Parse(Decimal(n)) == n
    ensures Decimal(n) != "" && (Decimal(n)[0] == '0' ==> n == 0 && |Decimal(n)| == 1)
    ensures forall c :: c in Decimal(n) ==> '0' <= c <= '9'
  {
    if n >= 10 {
      ParseDecimal(n / 10);
      assert Decimal(n)[..|Decimal(n)| - 1] == Decimal(n / 10);
    }
  }

  /** The name tried for a counter; `isDir` says whether what has the name is a folder. */
  function Candidate(name: string, isDir: bool, counter: nat): string {
    if isDir then name + " (" + Decimal(counter) + ")"
    else
      var start := ExtensionStart(name);
      name[..start] + " (" + Decimal(counter) + ")" + name[start..]
  }

  /** Different counters give different names. */
  lemma CandidateInjective(name: string, isDir: bool, a: nat, b: nat)
    requires Candidate(name, isDir, a) == Candidate(name, isDir, b)
    ensures a == b
  {
    hide ExtensionStart, Decimal, Parse;
    var start := if isDir then |name| else ExtensionStart(name);
    var head, tail := name[..start] + " (", ")" + name[start..];
    assert Candidate(name, isDir, a) == head + Decimal(a) + tail;
    assert Candidate(name, isDir, b) == head + Decimal(b) + tail;
    assert |Decimal(a)| == |Decimal(b)|;
    assert Decimal(a) == (head + Decimal(a) + tail)[|head|..|head| + |Decimal(a)|];
    assert Decimal(b) == (head + Decimal(b) + tail)[|head|..|head| + |Decimal(b)|];
    ParseDecimal(a);
    ParseDecimal(b);
  }

  /** The smallest counter from 1 whose name is free. */
  ghost predicate FirstFree(name: string, isDir: bool, dir: set<string>, k: nat) {
    && k >= 1 && Candidate(name, isDir, k) !in dir
    && forall j :: 1 <= j < k ==> Candidate(name, isDir, j) in dir
  }

  ghost predicate Resolves(name: string, isDir: bool, dir: set<string>, r: string) {
    if name !in dir then r == name
    else exists k :: FirstFree(name, isDir, dir, k) && r == Candidate(name, isDir, k)
  }

  ghost function Tried(name: string, isDir: bool, counter: nat): set<string> {
    if counter <= 1 then {} else Tried(name, isDir, counter - 1) + {Candidate(name, isDir, counter - 1)}
  }

  lemma {:induction false} TriedSize(name: string, isDir: bool, counter: nat)
    requires counter >= 1
    ensures |Tried(name, isDir, counter)| == counter - 1 && name !in Tried(name, isDir, counter)
    ensures forall k :: k >= counter ==> Candidate(name, isDir, k) !in Tried(name, isDir, counter)
  {
    if counter > 1 {
      TriedSize(name, isDir, counter - 1);
      LongerThanName(name, isDir, counter - 1);
      hide Candidate;
      forall k | k >= counter
        ensures Candidate(name, isDir, k) != Candidate(name, isDir, counter - 1)
      {
        if Candidate(name, isDir, k) == Candidate(name, isDir, counter - 1) {
          CandidateInjective(name, isDir, k, counter - 1);
        }
      }
    }
  }

  lemma {:induction false} TriedTaken(name: string, isDir: bool, dir: set<string>, counter: nat)
    requires counter >= 1 && forall j :: 1 <= j < counter ==> Candidate(name, isDir, j) in dir
    ensures Tried(name, isDir, counter) <= dir
  {
    hide Candidate;
    if counter > 1 {
      TriedTaken(name, isDir, dir, counter - 1);
    }
  }

  /** All names tried so far are taken, so there were fewer of them than names in the directory. */
  lemma TriesBounded(name: string, isDir: bool, dir: set<string>, counter: nat)
    requires counter >= 1 && name in dir
    requires forall j :: 1 <= j < counter ==> Candidate(name, isDir, j) in dir
    ensures counter <= |dir|
  {
    TriedSize(name, isDir, counter);
    TriedTaken(name, isDir, dir, counter);
    Subset(Tried(name, isDir, counter), dir - {name});
  }

  /** Terminates on every finite directory: the names tried are distinct and all taken. */
  method FindUniquePath(name: string, isDir: bool, dir: set<string>) returns (r: string)
    ensures r !in dir && Resolves(name, isDir, dir, r)
    ensures r == name || exists k: nat :: 1 <= k <= |dir| && r == Candidate(name, isDir, k)
  {
    if name !in dir {
      return name;
    }
    hide Candidate;
    var counter := 1;
    TriesBounded(name, isDir, dir, 1);
    while true
      invariant 1 <= counter <= |dir|
      invariant forall j :: 1 <= j < counter ==> Candidate(name, isDir, j) in dir
      decreases |dir| - counter
    {
      var newName := Candidate(name, isDir, counter);
      if newName !in dir {
        assert FirstFree(name, isDir, dir, counter);
        return newName;
      }
      counter := counter + 1;
      TriesBounded(name, isDir, dir, counter);
    }
  }

  lemma LongerThanName(name: string, isDir: bool, counter: nat)
    ensures Candidate(name, isDir, counter) != name
  {
    assert |Candidate(name, isDir, counter)| > |name|;
  }

  lemma OneResolution(name: string, isDir: bool, dir: set<string>, a: string, b: string)
    requires Resolves(name, isDir, dir, a) && Resolves(name, isDir, dir, b)
    ensures a == b
  {
  }

  /** `get_unique_paths` for one target: `staging` says whether a staging folder or `.state` file of it exists. */
  ghost predicate Chosen(mode: Mode, name: string, isDir: bool, dir: set<string>, staging: bool, r: string) {
    if mode != Unique || staging then r == name else Resolves(name, isDir, dir, r)
  }

  /** The names in a directory, of a set of existing paths. */
  function NamesIn(existing: set<Path>, dest: Path): set<string> {
    set p | p in existing && |p| == |dest| + 1 && dest <= p :: p[|dest|]
  }

  /** The two places `get_unique_paths` looks for staging data of a target at: as of a folder, and as of a file. */
  function FolderStaging(dest: Path, name: string): Path {
    dest + [name, STAGING_DIR_NAME]
  }

  function FileState(dest: Path, name: string): Path {
    dest + [STAGING_DIR_NAME, name + ".state"]
  }

  predicate HasStaging(existing: set<Path>, dest: Path, name: string) {
    FolderStaging(dest, name) in existing || FileState(dest, name) in existing
  }

  /** `get_unique_paths` for one target, on the existing paths. */
  ghost predicate ChosenIn(mode: Mode, existing: set<Path>, dest: Path, name: string, isDir: bool, r: string) {
    Chosen(mode, name, isDir, NamesIn(existing, dest), HasStaging(existing, dest, name), r)
  }

  /** The folder place is where a transfer stages if and only if it has a folder of its own of that name. */
  lemma FolderStagingIs(s: TransferStaging, name: string)
    ensures FolderStaging(s.destDir, name) == s.StagingDir() <==> s.topLevelPrefix == Some(name)
  {
    var p, q := FolderStaging(s.destDir, name), s.StagingDir();
    assert p[|s.destDir|] == name;
    if p == q { assert s.topLevelPrefix.Some? && q[|s.destDir|] == s.topLevelPrefix.value; }
  }

  /** The file place is the `.state` path of exactly the top-level file of that name, without a common folder. */
  lemma FileStateIs(s: TransferStaging, name: string, rel: Path)
    requires s.topLevelPrefix == None && rel != []
    ensures FileState(s.destDir, name) == s.StatePath(rel) <==> rel == [name]
  {
    var p := FileState(s.destDir, name);
    var dir := s.StagingDir();
    assert p == WithAddedExtension(dir + [name], "state") by {
      assert (dir + [name])[..|dir|] == dir && name + ".state" == name + "." + "state";
    }
    ExtensionInjective(dir + [name], dir + rel, "state");
    if dir + [name] == dir + rel { assert (dir + [name])[|dir|..] == [name] && (dir + rel)[|dir|..] == rel; }
  }

  lemma NameIn(existing: set<Path>, dest: Path, name: string)
    ensures name in NamesIn(existing, dest) <==> dest + [name] in existing
  {
    if name in NamesIn(existing, dest) {
      var p :| p in existing && |p| == |dest| + 1 && dest <= p && p[|dest|] == name;
      assert p == dest + [name];
    }
  }

  /**
   When a reconnect keeps the path the first round chose, with no name gone from the directory since. In Unique mode: if
   staging data is found at one of the two places, which go by the original name, exactly when that name was chosen; if
   not, exactly when the chosen name has not been created yet.
   */
  lemma PathKept(mode: Mode, dest: Path, name: string, isDir: bool, existing: set<Path>, first: string,
                 existing1: set<Path>, second: string)
    requires ChosenIn(mode, existing, dest, name, isDir, first) && ChosenIn(mode, existing1, dest, name, isDir, second)
    requires NamesIn(existing, dest) <= NamesIn(existing1, dest)
    ensures second == first <==>
              mode != Unique ||
              (if HasStaging(existing1, dest, name) then first == name else dest + [first] !in existing1)
  {
    NameIn(existing1, dest, first);
    var dir, dir1 := NamesIn(existing, dest), NamesIn(existing1, dest);
    hide NamesIn, HasStaging, Candidate;
    if mode == Unique && !HasStaging(existing1, dest, name) {
      if first in dir1 {
        FreeName(name, isDir, dir1, second);
      } else {
        StillFree(name, isDir, dir, dir1, HasStaging(existing, dest, name), first);
        OneResolution(name, isDir, dir1, first, second);
      }
    }
  }

  /** A chosen name that is still free is still the first free one. */
  lemma StillFree(name: string, isDir: bool, dir: set<string>, dir1: set<string>, staging: bool, first: string)
    requires Chosen(Unique, name, isDir, dir, staging, first) && dir <= dir1 && first !in dir1
    ensures Resolves(name, isDir, dir1, first)
  {
    if !staging && name in dir {
      var k :| FirstFree(name, isDir, dir, k) && first == Candidate(name, isDir, k);
      assert FirstFree(name, isDir, dir1, k);
    }
  }

  /** The staging data at the two places, if any, is that of the transfer itself. */
  ghost predicate OwnStaging(s: TransferStaging, rels: seq<Path>, existing: set<Path>, name: string) {
    && (FolderStaging(s.destDir, name) in existing ==> FolderStaging(s.destDir, name) == s.StagingDir())
    && (FileState(s.destDir, name) in existing ==>
          exists f :: 0 <= f < |rels| && FileState(s.destDir, name) == s.StatePath(rels[f]))
  }

  /**
   A folder sent alone stages in the folder it was resolved to, which the handshake creates. A reconnect in Unique mode
   finds that if and only if the folder was not renamed: a renamed one is renamed again.
   */
  lemma FolderAlone(s: TransferStaging, rels: seq<Path>, name: string, isDir: bool, existing: set<Path>,
                    first: string, existing1: set<Path>, second: string)
    requires s.topLevelPrefix == Some(first) && s.StagingDir() in existing1 && s.destDir + [first] in existing1
    requires FileState(s.destDir, name) !in existing1 && OwnStaging(s, rels, existing1, name)
    requires ChosenIn(Unique, existing, s.destDir, name, isDir, first)
    requires ChosenIn(Unique, existing1, s.destDir, name, isDir, second)
    requires NamesIn(existing, s.destDir) <= NamesIn(existing1, s.destDir)
    ensures second == first <==> first == name
  {
    FolderStagingIs(s, name);
    PathKept(Unique, s.destDir, name, isDir, existing, first, existing1, second);
    hide ChosenIn, NamesIn;
  }

  /**
   A folder among several targets stages in the folder all targets share, where nothing goes by its name. A reconnect in
   Unique mode takes the folder the handshake made for it for someone else's, and renames it, whether it was renamed or
   not.
   */
  lemma FolderAmongSeveral(s: TransferStaging, rels: seq<Path>, name: string, isDir: bool, existing: set<Path>,
                           first: string, existing1: set<Path>, second: string)
    requires s.topLevelPrefix == None && s.destDir + [first] in existing1
    requires OwnStaging(s, rels, existing1, name) && forall f :: 0 <= f < |rels| ==> rels[f] != [] && rels[f] != [name]
    requires ChosenIn(Unique, existing, s.destDir, name, isDir, first)
    requires ChosenIn(Unique, existing1, s.destDir, name, isDir, second)
    requires NamesIn(existing, s.destDir) <= NamesIn(existing1, s.destDir)
    ensures second != first
  {
    FolderStagingIs(s, name);
    forall f | 0 <= f < |rels|
      ensures FileState(s.destDir, name) != s.StatePath(rels[f])
    {
      FileStateIs(s, name, rels[f]);
    }
    PathKept(Unique, s.destDir, name, isDir, existing, first, existing1, second);
    hide ChosenIn, NamesIn, FileState, FolderStaging, TransferStaging.StatePath;
  }

  /**
   A top-level file keeps its path if and only if it was not renamed and its `.state` is there, or its final file is
   not: once committed it is renamed.
   */
  lemma FileAtTop(s: TransferStaging, rels: seq<Path>, name: string, isDir: bool, existing: set<Path>,
                  first: string, existing1: set<Path>, second: string)
    requires s.topLevelPrefix == None && OwnStaging(s, rels, existing1, name)
    requires forall f :: 0 <= f < |rels| ==> rels[f] != [] && (rels[f] == [name] ==> first == name)
    requires ChosenIn(Unique, existing, s.destDir, name, isDir, first)
    requires ChosenIn(Unique, existing1, s.destDir, name, isDir, second)
    requires NamesIn(existing, s.destDir) <= NamesIn(existing1, s.destDir)
    ensures second == first <==>
              (first == name && s.StatePath([name]) in existing1) || s.destDir + [first] !in existing1
  {
    FolderStagingIs(s, name);
    FileStateIs(s, name, [name]);
    if FileState(s.destDir, name) in existing1 {
      var f :| 0 <= f < |rels| && FileState(s.destDir, name) == s.StatePath(rels[f]);
      FileStateIs(s, name, rels[f]);
    }
    PathKept(Unique, s.destDir, name, isDir, existing, first, existing1, second);
    hide ChosenIn, NamesIn, FileState, FolderStaging, TransferStaging.StatePath;
  }

  /** The original name is kept. */
  predicate Keeps(mode: Mode, name: string, dir: set<string>, staging: bool) {
    mode != Unique || staging || name !in dir
  }

  function Extension(name: string, isDir: bool): string {
    if isDir then "" else name[ExtensionStart(name)..]
  }

  /** The name is renamed to the original name of another target, which is free and so kept by that one. */
  ghost predicate RunsInto(name: string, isDir: bool, dir: set<string>, other: string) {
    exists k :: FirstFree(name, isDir, dir, k) && Candidate(name, isDir, k) == other
  }

  lemma {:induction false} NoParen(n: nat)
    ensures '(' !in Decimal(n)
  {
    if n >= 10 { NoParen(n / 10); }
  }

  lemma SameEnd(a: string, s: string, b: string, t: string)
    requires a + s == b + t && |s| == |t|
    ensures a == b && s == t
  {
    assert a == (a + s)[..|a|] && b == (b + t)[..|b|];
    assert s == (a + s)[|a|..] && t == (b + t)[|b|..];
  }

  /** The counter is behind the last parenthesis that opens. */
  lemma SameStem(a: string, s: string, b: string, t: string)
    requires a + "(" + s == b + "(" + t && '(' !in s && '(' !in t
    ensures a == b && s == t
  {
    assert a + "(" + s == a + ['('] + s && b + "(" + t == b + ['('] + t;
    RFindAt(a, '(', s);
    RFindAt(b, '(', t);
    SameEnd(a + "(", s, b + "(", t);
    SameEnd(a, "(", b, "(");
  }

  /** Two renamed targets share a candidate only when their extensions differ in length. */
  lemma {:induction false} CandidatesApart(a: string, aDir: bool, b: string, bDir: bool, k: nat, l: nat)
    requires |Extension(a, aDir)| == |Extension(b, bDir)| && Candidate(a, aDir, k) == Candidate(b, bDir, l)
    ensures a == b && k == l
  {
    hide ExtensionStart, Decimal, Parse, RFind;
    var s, t := Extension(a, aDir), Extension(b, bDir);
    var p, q := a[..|a| - |s|], b[..|b| - |t|];
    assert a == p + s && b == q + t;
    assert Candidate(a, aDir, k) == ((p + " " + "(" + Decimal(k)) + ")") + s;
    assert Candidate(b, bDir, l) == ((q + " " + "(" + Decimal(l)) + ")") + t;
    hide Candidate, Extension;
    SameEnd((p + " " + "(" + Decimal(k)) + ")", s, (q + " " + "(" + Decimal(l)) + ")", t);
    SameEnd(p + " " + "(" + Decimal(k), ")", q + " " + "(" + Decimal(l), ")");
    NoParen(k);
    NoParen(l);
    SameStem(p + " ", Decimal(k), q + " ", Decimal(l));
    SameEnd(p, " ", q, " ");
    ParseDecimal(k);
    ParseDecimal(l);
  }

  function Mark(counter: nat): string {
    " (" + Decimal(counter) + ")"
  }

  function Stem(name: string, isDir: bool): string {
    name[..|name| - |Extension(name, isDir)|]
  }

  lemma Together(stem: string, k: nat, end: string)
    ensures stem + " (" + Decimal(k) + ")" + end == stem + Mark(k) + end
  {
    hide Decimal;
    assert stem + " (" + Decimal(k) + ")" == stem + (" (" + Decimal(k) + ")");
  }

  lemma Parts(name: string, isDir: bool, k: nat)
    ensures name == Stem(name, isDir) + Extension(name, isDir)
    ensures Candidate(name, isDir, k) == Stem(name, isDir) + Mark(k) + Extension(name, isDir)
    ensures Extension(name, isDir) != "" ==> Extension(name, isDir)[0] == '.'
  {
    hide Decimal;
    if isDir {
      Together(name, k, "");
    } else {
      var start := ExtensionStart(name);
      hide ExtensionStart;
      Together(name[..start], k, name[start..]);
    }
  }

  /**
   The extension of b ends in counter k of a and the extension of a: with "s" the one and "u (k)s" the other, a is
   "q (l)us" and b is "qu (k)s".
   */
  predicate Nested(a: string, aDir: bool, b: string, bDir: bool, k: nat, l: nat) {
    EndsIn(Stem(a, aDir), Mark(k), Extension(a, aDir), Stem(b, bDir), Mark(l), Extension(b, bDir))
  }

  predicate EndsIn(p: string, m: string, s: string, q: string, n: string, t: string) {
    var cut := |t| - |m| - |s|;
    0 <= cut && t[cut..] == m + s && p == q + n + t[..cut]
  }

  lemma Regroup(q: string, n: string, u: string, m: string, s: string)
    ensures (q + n + u) + m + s == q + n + (u + (m + s))
  {
  }

  lemma EndsMeet(p: string, m: string, s: string, q: string, n: string, t: string)
    requires EndsIn(p, m, s, q, n, t)
    ensures p + m + s == q + n + t
  {
    var cut := |t| - |m| - |s|;
    assert t == t[..cut] + t[cut..];
    Regroup(q, n, t[..cut], m, s);
  }

  /** A longer ending that begins with a dot reaches back behind a mark without one. */
  lemma MeetEnds(p: string, m: string, s: string, q: string, n: string, t: string)
    requires p + m + s == q + n + t && |s| < |t| && t[0] == '.' && '.' !in m
    ensures EndsIn(p, m, s, q, n, t)
  {
    var c, cut := p + m + s, |t| - |m| - |s|;
    var from := |c| - |t|;
    assert c[from..] == t && c[|p|..] == m + s && c[|p|..|p| + |m|] == m;
    assert c[from] == t[0] && from <= |p|;
    assert t[cut..] == c[|p|..];
    assert c[..|p|] == p && c[..from] == q + n && c[..|p|] == c[..from] + t[..cut];
  }

  lemma {:induction false} NoDotIn(n: nat)
    ensures '.' !in Decimal(n)
  {
    if n >= 10 { NoDotIn(n / 10); }
  }

  /** The candidates of two names meet exactly when one name is nested in the other. */
  lemma CandidatesMeet(a: string, aDir: bool, b: string, bDir: bool, k: nat, l: nat)
    requires a != b
    ensures Candidate(a, aDir, k) == Candidate(b, bDir, l) <==>
              Nested(a, aDir, b, bDir, k, l) || Nested(b, bDir, a, aDir, l, k)
  {
    Parts(a, aDir, k);
    Parts(b, bDir, l);
    NoDotIn(k);
    NoDotIn(l);
    var (p, m, s) := (Stem(a, aDir), Mark(k), Extension(a, aDir));
    var (q, n, t) := (Stem(b, bDir), Mark(l), Extension(b, bDir));
    hide Decimal;
    assert '.' !in m && '.' !in n;
    hide EndsIn, Candidate, Extension, Stem, Mark;
    if EndsIn(p, m, s, q, n, t) { EndsMeet(p, m, s, q, n, t); }
    if EndsIn(q, n, t, p, m, s) { EndsMeet(q, n, t, p, m, s); }
    if Candidate(a, aDir, k) == Candidate(b, bDir, l) {
      if |s| < |t| {
        MeetEnds(p, m, s, q, n, t);
      } else if |t| < |s| {
        MeetEnds(q, n, t, p, m, s);
      } else {
        CandidatesApart(a, aDir, b, bDir, k, l);
      }
    }
  }

  /** Both targets are renamed, their first free counters being ones that nest one name in the other. */
  ghost predicate NestedFree(a: string, aDir: bool, b: string, bDir: bool, dir: set<string>) {
    exists k, l ::
      && FirstFree(a, aDir, dir, k) && FirstFree(b, bDir, dir, l)
      && (Nested(a, aDir, b, bDir, k, l) || Nested(b, bDir, a, aDir, l, k))
  }

  /**
   Two targets of one transfer, each resolved in the same directory as if it were alone, get the same name if and only
   if one is renamed to the free name of the other, or both are renamed and one name is nested in the other with the
   first free counters of both.
   */
  lemma NamesCollide(mode: Mode, dir: set<string>, a: string, aDir: bool, aStaging: bool, ra: string,
                     b: string, bDir: bool, bStaging: bool, rb: string)
    requires a != b && Chosen(mode, a, aDir, dir, aStaging, ra) && Chosen(mode, b, bDir, dir, bStaging, rb)
    ensures ra == rb <==>
              if Keeps(mode, a, dir, aStaging) then !Keeps(mode, b, dir, bStaging) && RunsInto(b, bDir, dir, a)
              else if Keeps(mode, b, dir, bStaging) then RunsInto(a, aDir, dir, b)
              else NestedFree(a, aDir, b, bDir, dir)
  {
    hide Candidate, Nested;
    if Keeps(mode, a, dir, aStaging) && !Keeps(mode, b, dir, bStaging) && RunsInto(b, bDir, dir, a) {
      OneResolution(b, bDir, dir, a, rb);
    }
    if !Keeps(mode, a, dir, aStaging) && Keeps(mode, b, dir, bStaging) && RunsInto(a, aDir, dir, b) {
      OneResolution(a, aDir, dir, b, ra);
    }
    if !Keeps(mode, a, dir, aStaging) && !Keeps(mode, b, dir, bStaging) {
      var k :| FirstFree(a, aDir, dir, k) && ra == Candidate(a, aDir, k);
      var l :| FirstFree(b, bDir, dir, l) && rb == Candidate(b, bDir, l);
      CandidatesMeet(a, aDir, b, bDir, k, l);
      OneFirst(a, aDir, dir, k);
      OneFirst(b, bDir, dir, l);
    }
  }

  lemma OneFirst(name: string, isDir: bool, dir: set<string>, k: nat)
    requires FirstFree(name, isDir, dir, k)
    ensures forall j :: FirstFree(name, isDir, dir, j) ==> j == k
  {
    hide Candidate;
  }

  lemma FirstTry(name: string, isDir: bool, dir: set<string>, r: string)
    requires name in dir && r == Candidate(name, isDir, 1) && r !in dir
    ensures Resolves(name, isDir, dir, r)
  {
    assert FirstFree(name, isDir, dir, 1);
  }

  lemma StaysFree(name: string, isDir: bool, dir: set<string>)
    requires name !in dir
    ensures Chosen(Unique, name, isDir, dir, false, name)
  {
  }

  lemma ChosenFree(name: string, isDir: bool, dir: set<string>, r: string)
    requires Resolves(name, isDir, dir, r)
    ensures Chosen(Unique, name, isDir, dir, false, r)
  {
  }

  lemma FirstCandidate(stem: string, suffix: string)
    requires '.' !in stem && '.' !in suffix && stem != []
    ensures Candidate(stem + "." + suffix, false, 1) == stem + " (1)" + "." + suffix
    ensures Candidate(stem + "." + suffix, true, 1) == stem + "." + suffix + " (1)"
  {
    PlainExtension(stem, suffix);
    assert Decimal(1) == "1";
    hide ExtensionStart, Decimal;
    var name := stem + "." + suffix;
    assert name[..|stem|] == stem && name[|stem|..] == "." + suffix;
    assert " (" + "1" + ")" == " (1)";
  }

  /** "x.txt" is taken and "x (1).txt" is free: the targets of these two names both get the second one. */
  lemma TwoTargetsOneName()
    ensures Chosen(Unique, "x.txt", false, {"x.txt"}, false, "x (1).txt")
    ensures Chosen(Unique, "x (1).txt", false, {"x.txt"}, false, "x (1).txt")
  {
    FirstCandidate("x", "txt");
    Spelling();
    hide *;
    FirstTry("x.txt", false, {"x.txt"}, "x (1).txt");
    ChosenFree("x.txt", false, {"x.txt"}, "x (1).txt");
    StaysFree("x (1).txt", false, {"x.txt"});
  }

  /** Both taken: the folder "q (1).r" and the file "q.r (1)" are renamed to the same free name. */
  lemma FolderAndFileOneName()
    ensures var dir := {"q (1).r", "q.r (1)"};
            && Chosen(Unique, "q (1).r", true, dir, false, "q (1).r (1)")
            && Chosen(Unique, "q.r (1)", false, dir, false, "q (1).r (1)")
  {
    FirstCandidate("q", "r (1)");
    FirstCandidate("q (1)", "r");
    Spelling();
    hide *;
    var dir := {"q (1).r", "q.r (1)"};
    FirstTry("q.r (1)", false, dir, "q (1).r (1)");
    FirstTry("q (1).r", true, dir, "q (1).r (1)");
    ChosenFree("q.r (1)", false, dir, "q (1).r (1)");
    ChosenFree("q (1).r", true, dir, "q (1).r (1)");
  }

  lemma Spelling()
    ensures "x" + "." + "txt" == "x.txt" && "x" + " (1)" + "." + "txt" == "x (1).txt"
    ensures "x (1).txt" !in {"x.txt"} && '.' !in "x" && '.' !in "txt"
    ensures "q" + "." + "r (1)" == "q.r (1)" && "q" + " (1)" + "." + "r (1)" == "q (1).r (1)"
    ensures "q (1)" + "." + "r" == "q (1).r" && "q (1)" + "." + "r" + " (1)" == "q (1).r (1)"
    ensures "q (1).r (1)" !in {"q (1).r", "q.r (1)"}
  {
    assert |"x (1).txt"| == 9 && |"x.txt"| == 5;
    assert |"q (1).r (1)"| == 11 && |"q (1).r"| == 7 && |"q.r (1)"| == 7;
  }

  /** A folder "P" is there: another one sent is renamed to "P (1)". */
  lemma FolderRenamed()
    ensures Chosen(Unique, "P", true, {"P"}, false, "P (1)")
  {
    assert Decimal(1) == "1" && Candidate("P", true, 1) == "P" + " (" + "1" + ")" == "P (1)";
    hide *;
    assert |"P"| != |"P (1)"|;
    FirstTry("P", true, {"P"}, "P (1)");
    ChosenFree("P", true, {"P"}, "P (1)");
  }

  /** The chosen path is free if and only if no staging data was found, or nothing has the original name. */
  lemma TargetFree(name: string, isDir: bool, dir: set<string>, staging: bool, r: string)
    requires Chosen(Unique, name, isDir, dir, staging, r)
    ensures r !in dir <==> !staging || name !in dir
  {
    if !staging { FreeName(name, isDir, dir, r); }
  }

  lemma FreeName(name: string, isDir: bool, dir: set<string>, r: string)
    requires Resolves(name, isDir, dir, r)
    ensures r !in dir
  {
  }
}
