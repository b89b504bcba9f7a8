/** SHA256SUMS: the printer, the verifier that parses it back, and the canonical archive names between them. */
module Checksums {
  import opened Text
  import opened Readback
  import opened ProductVersion
  import Sorting

  const HASH_LENGTH := 64

  predicate IsHash(s: string) {
    |s| == HASH_LENGTH && forall i :: 0 <= i < |s| ==> '0' <= s[i] <= '9' || 'a' <= s[i] <= 'f'
  }

  predicate HasAny(s: string, chars: string) {
    exists i :: 0 <= i < |s| && s[i] in chars
  }

  /** A name the printer takes: no separator or space in it, and an archive suffix. */
  predicate PrintableName(name: string) {
    !HasAny(name, "/\\:\r\n\t ") && (EndsWith(name, ".zip") || EndsWith(name, ".tar.gz"))
  }

  /** Printable names in strictly ascending order. */
  predicate Printable(names: seq<string>) {
    && (forall i :: 0 <= i < |names| ==> PrintableName(names[i]))
    && (forall i, j :: 0 <= i < j < |names| ==> Less(names[i], names[j]))
  }

  predicate Hashes(hashes: seq<string>, n: nat) {
    |hashes| == n && forall i :: 0 <= i < n ==> IsHash(hashes[i])
  }

  function RecordOf(hash: string, name: string): string {
    hash + "  " + name
  }

  /** One LF-terminated record a name. */
  function Printed(hashes: seq<string>, names: seq<string>): string
    requires |hashes| == |names|
  {
    if names == [] then ""
    else
      var n := |names| - 1;
      Printed(hashes[..n], names[..n]) + RecordOf(hashes[n], names[n]) + "\n"
  }

  // ---------------------------------------------------------------- the printer

  function Digests(archives: seq<Asset>): (r: seq<string>)
    ensures |r| == |archives| && forall i :: 0 <= i < |r| ==> r[i] == archives[i].sha256
  {
    seq(|archives|, i requires 0 <= i < |archives| => archives[i].sha256)
  }

  predicate PrintedSoFar(archives: seq<Asset>) {
    Printable(Names(archives)) && Hashes(Digests(archives), |archives|)
  }

  lemma PrintedNext(archives: seq<Asset>, a: Asset)
    ensures PrintedSoFar(archives + [a]) <==>
              && PrintedSoFar(archives) && IsHash(a.sha256) && PrintableName(a.name)
              && (archives != [] ==> Less(archives[|archives| - 1].name, a.name))
  {
    hide PrintableName, IsHash;
    var all := archives + [a];
    var names, more := Names(archives), Names(all);
    assert more == names + [a.name] && Digests(all) == Digests(archives) + [a.sha256];
    if PrintedSoFar(archives) && archives != [] && Less(names[|names| - 1], a.name) {
      forall i | 0 <= i < |names| ensures Less(names[i], a.name) {
        if i < |names| - 1 {
          LessTransitive(names[i], names[|names| - 1], a.name);
        }
      }
    }
    if PrintedSoFar(all) {
      assert forall i :: 0 <= i < |archives| ==> more[i] == names[i] && Digests(all)[i] == Digests(archives)[i];
      assert IsHash(Digests(all)[|archives|]);
      assert PrintableName(more[|archives|]);
    }
  }

  lemma PrintedPrefix(archives: seq<Asset>, n: nat)
    requires n <= |archives| && PrintedSoFar(archives)
    ensures PrintedSoFar(archives[..n])
  {
  }

  /** publicationChecksumBytes for the given number of targets. A nonempty name is above "". */
  method PublicationChecksumBytes(archives: seq<Asset>, targets: nat) returns (r: Result<string>)
    ensures r.Ok? <==> |archives| == targets && PrintedSoFar(archives)
    ensures r.Ok? ==> r.value == Printed(Digests(archives), Names(archives))
    ensures r.Ok? ==> var lines := Split(r.value, '\n');
                      && |lines| == |archives| + 1 && lines[|archives|] == ""
                      && forall i :: 0 <= i < |archives| ==> lines[i] == archives[i].sha256 + "  " + archives[i].name
  {
    hide PrintedSoFar, Less, Split, Printed;
    if |archives| != targets {
      return Err;
    }
    var out, previous := "", "";
    var i := 0;
    NothingPrinted();
    while i < |archives|
      invariant 0 <= i <= |archives| && PrintedSoFar(archives[..i])
      invariant previous == if i == 0 then "" else archives[i - 1].name
      invariant out == Printed(Digests(archives[..i]), Names(archives[..i]))
    {
      var a := archives[i];
      assert archives[..i + 1] == archives[..i] + [a];
      PrintedNext(archives[..i], a);
      AboveEmpty(a.name);
      if !IsHash(a.sha256) || !Less(previous, a.name) || !PrintableName(a.name) {
        if PrintedSoFar(archives) {
          PrintedPrefix(archives, i + 1);
        }
        return Err;
      }
      PrintedOne(archives[..i], a);
      out := out + (a.sha256 + "  " + a.name + "\n");
      previous := a.name;
      i := i + 1;
    }
    assert archives[..i] == archives;
    PrintedLines(archives);
    return Ok(out);
  }

  lemma NothingPrinted()
    ensures PrintedSoFar([]) && Printed(Digests([]), Names([])) == ""
  {
  }

  lemma AboveEmpty(name: string)
    ensures PrintableName(name) ==> Less("", name)
  {
  }

  lemma PrintedOne(archives: seq<Asset>, a: Asset)
    ensures Printed(Digests(archives + [a]), Names(archives + [a])) ==
              Printed(Digests(archives), Names(archives)) + (a.sha256 + "  " + a.name + "\n")
  {
    var all := archives + [a];
    assert Names(all)[..|archives|] == Names(archives) && Digests(all)[..|archives|] == Digests(archives);
  }

  // ---------------------------------------------------------------- what is printed

  /** The archive has a 64-digit lower-case hexadecimal digest and a portable archive name. */
  ghost predicate Listable(a: Asset) {
    && |a.sha256| == 64 && (forall i :: 0 <= i < 64 ==> '0' <= a.sha256[i] <= '9' || 'a' <= a.sha256[i] <= 'f')
    && (forall i :: 0 <= i < |a.name| ==>
          && a.name[i] != '/' && a.name[i] != '\\' && a.name[i] != ':' && a.name[i] != ' '
          && a.name[i] != '\r' && a.name[i] != '\n' && a.name[i] != '\t')
    && exists stem: string :: a.name == stem + ".zip" || a.name == stem + ".tar.gz"
  }

  lemma ListableIs(a: Asset)
    ensures Listable(a) <==> IsHash(a.sha256) && PrintableName(a.name)
  {
    var name, marks := a.name, "/\\:\r\n\t ";
    assert forall c: char :: c in marks <==>
             c == '/' || c == '\\' || c == ':' || c == '\r' || c == '\n' || c == '\t' || c == ' ';
    hide EndsWith;
    StemIs(name, ".zip");
    StemIs(name, ".tar.gz");
  }

  lemma StemIs(name: string, suffix: string)
    ensures EndsWith(name, suffix) <==> exists stem: string :: name == stem + suffix
  {
    if EndsWith(name, suffix) {
      assert name == name[..|name| - |suffix|] + suffix;
    }
    if stem: string :| name == stem + suffix {
      assert name[|name| - |suffix|..] == suffix;
    }
  }

  /** The printer takes exactly listable archives in strictly ascending order of their names. */
  lemma PrintedSoFarIs(archives: seq<Asset>)
    ensures PrintedSoFar(archives) <==>
              && (forall a :: a in archives ==> Listable(a))
              && forall i, j :: 0 <= i < j < |archives| ==> Less(archives[i].name, archives[j].name)
  {
    hide Listable, IsHash, PrintableName;
    forall i | 0 <= i < |archives|
      ensures archives[i] in archives
      ensures Listable(archives[i]) <==> IsHash(Digests(archives)[i]) && PrintableName(Names(archives)[i])
    {
      ListableIs(archives[i]);
    }
  }

  /** Every line of the text is a digest, two spaces and a name, and ends with a line feed. */
  lemma PrintedLines(archives: seq<Asset>)
    requires PrintedSoFar(archives)
    ensures var lines := Split(Printed(Digests(archives), Names(archives)), '\n');
            && |lines| == |archives| + 1 && lines[|archives|] == ""
            && forall i :: 0 <= i < |archives| ==> lines[i] == archives[i].sha256 + "  " + archives[i].name
  {
    hide Printed, Split, Printable, Hashes;
    PrintedSplits(Digests(archives), Names(archives));
  }

  // ---------------------------------------------------------------- lines

  function Lines(hashes: seq<string>, names: seq<string>): (r: seq<string>)
    requires |hashes| == |names|
    ensures |r| == |names| && forall i :: 0 <= i < |r| ==> r[i] == RecordOf(hashes[i], names[i])
  {
    seq(|names|, i requires 0 <= i < |names| => RecordOf(hashes[i], names[i]))
  }

  lemma {:induction false} JoinSnoc(a: seq<string>, x: string, c: char)
    ensures Join(a + [x, ""], c) == Join(a + [""], c) + x + [c]
  {
    if a == [] {
      assert Join([x, ""], c) == x + [c] + Join([""], c);
      assert [x, ""][1..] == [""];
      assert [] + [x, ""] == [x, ""] && [] + [""] == [""];
    } else {
      JoinSnoc(a[1..], x, c);
      assert (a + [x, ""])[1..] == a[1..] + [x, ""] && (a + [""])[1..] == a[1..] + [""];
    }
  }

  /** The printed text is its lines, joined and terminated. */
  lemma {:induction false} PrintedIsJoined(hashes: seq<string>, names: seq<string>)
    requires |hashes| == |names|
    ensures Printed(hashes, names) == Join(Lines(hashes, names) + [""], '\n')
  {
    if names == [] {
      assert Lines(hashes, names) + [""] == [""];
    } else {
      var n := |names| - 1;
      PrintedIsJoined(hashes[..n], names[..n]);
      JoinSnoc(Lines(hashes[..n], names[..n]), RecordOf(hashes[n], names[n]), '\n');
      assert Lines(hashes, names) + [""] == Lines(hashes[..n], names[..n]) + [RecordOf(hashes[n], names[n]), ""];
    }
  }

  lemma LinesLackNewline(hashes: seq<string>, names: seq<string>)
    requires Hashes(hashes, |names|) && Printable(names)
    ensures forall i :: 0 <= i < |names| ==> Lacks(Lines(hashes, names)[i], '\n')
  {
  }

  /** Printed text splits back into its records and one empty rest. */
  lemma PrintedSplits(hashes: seq<string>, names: seq<string>)
    requires Hashes(hashes, |names|) && Printable(names)
    ensures Split(Printed(hashes, names), '\n') == Lines(hashes, names) + [""]
  {
    hide Printable, Join, Split, IsHash;
    PrintedIsJoined(hashes, names);
    LinesLackNewline(hashes, names);
    SplitJoin(Lines(hashes, names) + [""], '\n');
  }

  // ---------------------------------------------------------------- the verifier's parser

  /** The shape check of one line against its expected name. */
  predicate GoodLine(line: string, name: string) {
    |line| == 66 + |name| && IsHash(line[..64]) && line[64..] == "  " + name
  }

  lemma GoodLineIs(line: string, name: string)
    ensures GoodLine(line, name) <==> exists h :: IsHash(h) && line == RecordOf(h, name)
    ensures forall h :: IsHash(h) && line == RecordOf(h, name) ==> GoodLine(line, name) && line[..64] == h
  {
  }

  method ParseChecksums(data: string, names: seq<string>) returns (ok: bool, expected: map<string, string>)
    requires Printable(names)
    ensures ok <==> exists hashes :: Hashes(hashes, |names|) && data == Printed(hashes, names)
    ensures forall hashes :: Hashes(hashes, |names|) && data == Printed(hashes, names) ==>
              forall i :: 0 <= i < |names| ==> names[i] in expected && expected[names[i]] == hashes[i]
  {
    hide Split, Join, Printed, GoodLine, IsHash, PrintableName, Less, Lines;
    expected := map[];
    var lines := Split(data, '\n');
    forall hashes | Hashes(hashes, |names|) && data == Printed(hashes, names) ensures lines == Lines(hashes, names) + [""] {
      PrintedSplits(hashes, names);
    }
    if |lines| != |names| + 1 || lines[|names|] != "" {
      return false, expected;
    }
    ghost var found: seq<string> := [];
    var i := 0;
    while i < |names|
      invariant 0 <= i <= |names| && |found| == i
      invariant forall k :: 0 <= k < i ==> IsHash(found[k]) && lines[k] == RecordOf(found[k], names[k])
      invariant forall k :: 0 <= k < i ==> names[k] in expected && expected[names[k]] == found[k]
    {
      GoodLineIs(lines[i], names[i]);
      if !GoodLine(lines[i], names[i]) {
        return false, expected;
      }
      GoodHash(lines[i], names[i]);
      LaterName(names, i);
      expected := expected[names[i] := lines[i][..64]];
      found := found + [lines[i][..64]];
      i := i + 1;
    }
    Recovered(data, names, lines, found);
    return true, expected;
  }

  lemma GoodHash(line: string, name: string)
    requires GoodLine(line, name)
    ensures |line| >= 64 && IsHash(line[..64]) && line == RecordOf(line[..64], name)
  {
  }

  lemma LaterName(names: seq<string>, i: nat)
    requires Printable(names) && i < |names|
    ensures forall k :: 0 <= k < i ==> names[k] != names[i]
  {
    LessIrreflexive(names[i]);
  }

  /** The lines found are the data; and a record determines its hash. */
  lemma Recovered(data: string, names: seq<string>, lines: seq<string>, found: seq<string>)
    requires lines == Split(data, '\n') && |lines| == |names| + 1 && lines[|names|] == "" && |found| == |names|
    requires forall k :: 0 <= k < |names| ==> IsHash(found[k]) && lines[k] == RecordOf(found[k], names[k])
    requires Printable(names)
    ensures Hashes(found, |names|) && data == Printed(found, names)
    ensures forall hashes :: Hashes(hashes, |names|) && data == Printed(hashes, names) ==> hashes == found
  {
    hide Split, Join, Printed, IsHash, Printable;
    JoinSplit(data, '\n');
    PrintedIsJoined(found, names);
    assert lines == Lines(found, names) + [""];
    forall hashes | Hashes(hashes, |names|) && data == Printed(hashes, names) ensures hashes == found {
      PrintedSplits(hashes, names);
      forall k | 0 <= k < |names| ensures hashes[k] == found[k] {
        assert lines[k] == RecordOf(hashes[k], names[k]);
        SameHash(hashes[k], found[k], names[k]);
      }
    }
  }

  lemma SameHash(a: string, b: string, name: string)
    requires IsHash(a) && IsHash(b) && RecordOf(a, name) == RecordOf(b, name)
    ensures a == b
  {
    assert RecordOf(a, name)[..64] == a && RecordOf(b, name)[..64] == b;
  }

  // ---------------------------------------------------------------- canonical names

  datatype Target = Target(platform: string, architecture: string, extension: string)

  const TARGETS: seq<Target> :=
    [Target("windows", "x64", "zip"), Target("windows", "arm64", "zip"), Target("linux", "x64", "tar.gz"),
     Target("linux", "arm64", "tar.gz")]

  const DEVELOPMENT := "0.0.0-dev"

  function ArchiveName(version: string, t: Target): string {
    "flashgate-mcp_" + version + "_" + (t.platform + "_" + t.architecture + "." + t.extension)
  }

  function Tail(t: Target): string {
    t.platform + "_" + t.architecture + "." + t.extension
  }

  /** The targets in the order of their names. */
  const ORDERED: seq<Target> := [TARGETS[3], TARGETS[2], TARGETS[1], TARGETS[0]]

  function CanonicalNames(version: string): (r: seq<string>)
    ensures |r| == 4 && forall i :: 0 <= i < 4 ==> r[i] == ArchiveName(version, ORDERED[i])
  {
    [ArchiveName(version, ORDERED[0]), ArchiveName(version, ORDERED[1]), ArchiveName(version, ORDERED[2]),
     ArchiveName(version, ORDERED[3])]
  }

  lemma {:induction false} LessBehind(head: string, a: string, b: string)
    requires Less(a, b)
    ensures Less(head + a, head + b)
  {
    if head == [] {
      assert head + a == a && head + b == b;
    } else {
      LessBehind(head[1..], a, b);
      assert (head + a)[1..] == head[1..] + a && (head + b)[1..] == head[1..] + b;
    }
  }

  lemma TailsAscend()
    ensures Less(Tail(ORDERED[0]), Tail(ORDERED[1])) && Less(Tail(ORDERED[2]), Tail(ORDERED[3]))
    ensures Less(Tail(ORDERED[1]), Tail(ORDERED[2]))
  {
    LessBehind("linux_", "arm64.tar.gz", "x64.tar.gz");
    LessBehind("windows_", "arm64.zip", "x64.zip");
    assert "linux_" + "arm64.tar.gz" == Tail(ORDERED[0]) && "linux_" + "x64.tar.gz" == Tail(ORDERED[1]);
    assert "windows_" + "arm64.zip" == Tail(ORDERED[2]) && "windows_" + "x64.zip" == Tail(ORDERED[3]);
  }

  /** The four names a version is published under, in the order of the checksum file. */
  lemma CanonicalAre(version: string)
    ensures var head := "flashgate-mcp_" + version + "_";
            CanonicalNames(version) ==
              [head + "linux_arm64.tar.gz", head + "linux_x64.tar.gz", head + "windows_arm64.zip", head + "windows_x64.zip"]
  {
    hide ArchiveName;
    TailTexts();
    TailOf(version, ORDERED[0]);
    TailOf(version, ORDERED[1]);
    TailOf(version, ORDERED[2]);
    TailOf(version, ORDERED[3]);
  }

  lemma TailTexts()
    ensures Tail(ORDERED[0]) == "linux_arm64.tar.gz" && Tail(ORDERED[1]) == "linux_x64.tar.gz"
    ensures Tail(ORDERED[2]) == "windows_arm64.zip" && Tail(ORDERED[3]) == "windows_x64.zip"
  {
  }

  predicate NameChar(c: char) {
    'a' <= c <= 'z' || 'A' <= c <= 'Z' || '0' <= c <= '9' || c == '_' || c == '-' || c == '.' || c == '+'
  }

  predicate AllNameChars(s: string) {
    forall i :: 0 <= i < |s| ==> NameChar(s[i])
  }

  lemma NameCharsThen(a: string, b: string)
    requires AllNameChars(a) && AllNameChars(b)
    ensures AllNameChars(a + b)
  {
  }

  lemma NameCharIsPlain(c: char)
    requires NameChar(c)
    ensures c !in "/\\:\r\n\t "
  {
  }

  lemma TailChars(t: Target)
    requires t in TARGETS
    ensures AllNameChars("flashgate-mcp_") && AllNameChars(Tail(t)) && AllNameChars("_")
  {
    var platform, architecture := t.platform, t.architecture;
    assert AllNameChars(platform) && AllNameChars(architecture) && AllNameChars(t.extension);
    NameCharsThen(platform, "_");
    NameCharsThen(platform + "_", architecture);
    NameCharsThen(platform + "_" + architecture, ".");
    NameCharsThen(platform + "_" + architecture + ".", t.extension);
  }

  lemma NameChars(version: string, t: Target)
    requires VersionChars(version) && t in TARGETS
    ensures !HasAny(ArchiveName(version, t), "/\\:\r\n\t ")
  {
    hide Tail, VersionChars, AllNameChars;
    var name := ArchiveName(version, t);
    TailChars(t);
    VersionNameChars(version);
    NameCharsThen("flashgate-mcp_", version);
    NameCharsThen("flashgate-mcp_" + version, "_");
    NameCharsThen("flashgate-mcp_" + version + "_", Tail(t));
    TailOf(version, t);
    forall i | 0 <= i < |name| ensures name[i] !in "/\\:\r\n\t " {
      NameCharAt(name, i);
      NameCharIsPlain(name[i]);
    }
  }

  lemma NameCharAt(s: string, i: nat)
    requires AllNameChars(s) && i < |s|
    ensures NameChar(s[i])
  {
  }

  lemma VersionNameChars(version: string)
    requires VersionChars(version)
    ensures AllNameChars(version)
  {
  }

  lemma TailOf(version: string, t: Target)
    ensures ArchiveName(version, t) == "flashgate-mcp_" + version + "_" + Tail(t)
  {
  }

  /** For every product version the canonical names are what the printer takes. */
  lemma CanonicalIsPrintable(version: string)
    requires Valid(version)
    ensures Printable(CanonicalNames(version))
  {
    hide Less, HasAny;
    var head := "flashgate-mcp_" + version + "_";
    AcceptedHasNoSpace(version);
    forall i | 0 <= i < 4 ensures PrintableName(CanonicalNames(version)[i]) {
      NameChars(version, ORDERED[i]);
      NameSuffix(version, ORDERED[i]);
    }
    TailsAscend();
    var names := CanonicalNames(version);
    LessBehind(head, Tail(ORDERED[0]), Tail(ORDERED[1]));
    LessBehind(head, Tail(ORDERED[1]), Tail(ORDERED[2]));
    LessBehind(head, Tail(ORDERED[2]), Tail(ORDERED[3]));
    LessTransitive(names[0], names[1], names[2]);
    LessTransitive(names[0], names[2], names[3]);
    LessTransitive(names[1], names[2], names[3]);
  }

  lemma NameSuffix(version: string, t: Target)
    requires t in TARGETS
    ensures EndsWith(ArchiveName(version, t), ".zip") || EndsWith(ArchiveName(version, t), ".tar.gz")
  {
  }

  // ---------------------------------------------------------------- generating and verifying

  lemma SortedNames(version: string)
    requires Valid(version)
    ensures Sorting.SortBy((x: string) => x, seq(4, i requires 0 <= i < 4 => ArchiveName(version, TARGETS[i])))
         == CanonicalNames(version)
  {
    hide ArchiveName;
    var key := (x: string) => x;
    var listed := seq(4, i requires 0 <= i < 4 => ArchiveName(version, TARGETS[i]));
    var names := CanonicalNames(version);
    CanonicalIsPrintable(version);
    assert forall i :: 0 <= i < 4 ==> listed[i] == names[3 - i] && names[i] == listed[3 - i];
    Backwards(listed, names);
    Sorting.SortAscends(key, listed);
    Sorting.AscendingUnique(key, Sorting.SortBy(key, listed), names);
  }

  /** Ascending names read backwards are the same names, all different. */
  lemma Backwards(listed: seq<string>, names: seq<string>)
    requires |listed| == |names| == 4 && forall i, j :: 0 <= i < j < 4 ==> Less(names[i], names[j])
    requires forall i :: 0 <= i < 4 ==> listed[i] == names[3 - i] && names[i] == listed[3 - i]
    ensures forall i, j :: 0 <= i < j < 4 ==> listed[i] != listed[j]
    ensures forall x :: x in listed <==> x in names
  {
    hide Less;
    forall i, j | 0 <= i < j < 4 ensures listed[i] != listed[j] {
      LessIrreflexive(names[3 - i]);
      assert Less(names[3 - j], names[3 - i]);
    }
    forall i | 0 <= i < 4 ensures listed[i] in names && names[i] in listed {
      assert listed[i] == names[3 - i] && names[i] == listed[3 - i];
    }
  }

  predicate Identity(version: string) {
    version != DEVELOPMENT && Valid(version)
  }

  /** targetFor: the place of the target among the ordered names. */
  predicate IsTarget(platform: string, architecture: string, k: nat) {
    k < 4 && ORDERED[k].platform == platform && ORDERED[k].architecture == architecture
  }

  method TargetFor(platform: string, architecture: string) returns (t: Option<Target>)
    ensures t.Some? ==> t.value in TARGETS && t.value.platform == platform && t.value.architecture == architecture
    ensures t.None? ==> forall k: nat :: !IsTarget(platform, architecture, k)
  {
    var i := 0;
    while i < |TARGETS|
      invariant 0 <= i <= |TARGETS|
      invariant forall k :: 0 <= k < i ==> !(TARGETS[k].platform == platform && TARGETS[k].architecture == architecture)
    {
      if TARGETS[i].platform == platform && TARGETS[i].architecture == architecture {
        return Some(TARGETS[i]);
      }
      i := i + 1;
    }
    return None;
  }

  /** The data are the printed checksums of some hashes, and the selected archive has the hash printed for it. */
  ghost predicate Attested(version: string, k: nat, data: string, digest: string) {
    k < 4 && exists hashes :: && Hashes(hashes, 4) && data == Printed(hashes, CanonicalNames(version))
                              && digest == hashes[k]
  }

  predicate HashText(h: string) {
    |h| == 64 && forall i :: 0 <= i < 64 ==> '0' <= h[i] <= '9' || 'a' <= h[i] <= 'f'
  }

  ghost predicate HashLine(line: string, name: string) {
    exists h :: HashText(h) && line == h + "  " + name
  }

  /** A digest is attested when each line is some digest, two spaces and its name, and the selected line is this one's. */
  lemma AttestedMeans(version: string, k: nat, data: string, digest: string)
    requires Valid(version)
    ensures Attested(version, k, data, digest) <==>
              var lines, names := Split(data, '\n'), CanonicalNames(version);
              && k < 4 && |lines| == 5 && lines[4] == ""
              && (forall i :: 0 <= i < 4 ==> HashLine(lines[i], names[i]))
              && HashText(digest) && lines[k] == digest + "  " + names[k]
  {
    hide Split, Printed, Valid, IsHash, CanonicalNames, Printable, Join;
    var lines, names := Split(data, '\n'), CanonicalNames(version);
    CanonicalIsPrintable(version);
    HashTextIs();
    if Attested(version, k, data, digest) {
      var hashes :| Hashes(hashes, 4) && data == Printed(hashes, names) && digest == hashes[k];
      PrintedSplits(hashes, names);
      assert forall i :: 0 <= i < 4 ==> lines[i] == hashes[i] + "  " + names[i];
    }
    if k < 4 && |lines| == 5 && lines[4] == "" && HashText(digest) && lines[k] == digest + "  " + names[k]
       && forall i :: 0 <= i < 4 ==> HashLine(lines[i], names[i]) {
      var hashes := LinesHashes(lines, names);
      SameHash(hashes[k], digest, names[k]);
      Recovered(data, names, lines, hashes);
    }
  }

  lemma HashTextIs()
    ensures forall h :: HashText(h) <==> IsHash(h)
  {
  }

  lemma LinesHashes(lines: seq<string>, names: seq<string>) returns (hashes: seq<string>)
    requires |lines| == 5 && |names| == 4
    requires forall i :: 0 <= i < 4 ==> HashLine(lines[i], names[i])
    ensures |hashes| == 4 && forall i :: 0 <= i < 4 ==> IsHash(hashes[i]) && lines[i] == RecordOf(hashes[i], names[i])
  {
    HashTextIs();
    assert HashLine(lines[0], names[0]) && HashLine(lines[1], names[1]) && HashLine(lines[2], names[2]) && HashLine(lines[3], names[3]);
    var a :| HashText(a) && lines[0] == a + "  " + names[0];
    var b :| HashText(b) && lines[1] == b + "  " + names[1];
    var c :| HashText(c) && lines[2] == c + "  " + names[2];
    var d :| HashText(d) && lines[3] == d + "  " + names[3];
    hashes := [a, b, c, d];
  }

  lemma OneTarget(platform: string, architecture: string, t: Target) returns (k: nat)
    requires t in TARGETS && t.platform == platform && t.architecture == architecture
    ensures k < 4 && ORDERED[k] == t && forall m: nat :: IsTarget(platform, architecture, m) <==> m == k
  {
    k := if t == ORDERED[0] then 0 else if t == ORDERED[1] then 1 else if t == ORDERED[2] then 2 else 3;
    PlatformsDiffer();
  }

  lemma PlatformsDiffer()
    ensures "windows" != "linux" && "x64" != "arm64"
  {
  }

  /** What the parser's answer says about the selected archive. */
  lemma AttestedIs(version: string, k: nat, data: string, good: bool, expected: map<string, string>, digest: string)
    requires k < 4
    requires good <==> exists hashes :: Hashes(hashes, 4) && data == Printed(hashes, CanonicalNames(version))
    requires forall hashes :: Hashes(hashes, 4) && data == Printed(hashes, CanonicalNames(version)) ==>
               forall i :: 0 <= i < 4 ==> CanonicalNames(version)[i] in expected && expected[CanonicalNames(version)[i]] == hashes[i]
    ensures good ==> CanonicalNames(version)[k] in expected
    ensures Attested(version, k, data, digest) <==> good && expected[CanonicalNames(version)[k]] == digest
  {
  }

  /** verifySelectedPublication. data is the SHA256SUMS text, digestOf the digest of an archive that can be opened. */
  method VerifySelectedPublication(version: string, platform: string, architecture: string, data: Option<string>,
                                   digestOf: string -> Option<string>)
    returns (ok: bool)
    ensures ok <==> && Identity(version) && data.Some?
                    && exists k: nat :: && IsTarget(platform, architecture, k)
                                        && digestOf(ArchiveName(version, ORDERED[k])).Some?
                                        && Attested(version, k, data.value, digestOf(ArchiveName(version, ORDERED[k])).value)
  {
    hide Printed, Hashes, Less, ArchiveName, Valid, IsTarget, Attested, CanonicalNames, Printable;
    var identity := ParseSemVer(version);
    if version == DEVELOPMENT || identity.Err? {
      return false;
    }
    var target := TargetFor(platform, architecture);
    if target.None? {
      return false;
    }
    if data.None? {
      return false;
    }
    var names := Sorting.SortBy((x: string) => x, seq(4, i requires 0 <= i < 4 => ArchiveName(version, TARGETS[i])));
    SortedNames(version);
    CanonicalIsPrintable(version);
    ghost var k := OneTarget(platform, architecture, target.value);
    var good, expected := ParseChecksums(data.value, names);
    var name := ArchiveName(version, target.value);
    var digest := digestOf(name);
    AttestedIs(version, k, data.value, good, expected, digest.GetOr(""));
    assert CanonicalNames(version)[k] == name;
    return good && digest.Some? && digest.value == expected[name];
  }

  /** What the printer writes for the canonical archives, the verifier accepts, with exactly their digests. */
  lemma PrinterMeetsVerifier(archives: seq<Asset>, version: string, k: nat, digest: string)
    requires Valid(version) && Names(archives) == CanonicalNames(version) && PrintedSoFar(archives) && k < 4
    ensures Attested(version, k, Printed(Digests(archives), Names(archives)), digest) <==> digest == archives[k].sha256
  {
    hide Printed, Valid, Less, PrintableName, IsHash;
    var names, hashes := CanonicalNames(version), Digests(archives);
    if Attested(version, k, Printed(hashes, names), digest) {
      var other :| Hashes(other, 4) && Printed(hashes, names) == Printed(other, names) && digest == other[k];
      PrintedSplits(hashes, names);
      PrintedSplits(other, names);
      assert Lines(hashes, names)[k] == (Lines(hashes, names) + [""])[k] == (Lines(other, names) + [""])[k] == Lines(other, names)[k];
      SameHash(other[k], hashes[k], names[k]);
    }
  }
}
