/** lib/deploymentid.go, lib/manifest_id.go, lib/source_location.go and lib/source_id.go:
    identifiers as (ASCII) strings and back. */
module Identifiers {
  import opened Types

  // ---------------------------------------------------------------- splitting

  function IndexOf(s: string, c: char): (i: nat)
    ensures i <= |s| && c !in s[..i]
    ensures i < |s| ==> s[i] == c
  {
    if s == "" || s[0] == c then 0
    else
      assert forall i | 0 <= i < |s| :: s[..i + 1] == [s[0]] + s[1..][..i];
      1 + IndexOf(s[1..], c)
  }

  /** Go's `strings.Split` with a separator of one character. */
  function Split(s: string, c: char): (parts: seq<string>)
    ensures |parts| > 0
    decreases |s|
  {
    var i := IndexOf(s, c);
    if i == |s| then [s] else [s[..i]] + Split(s[i + 1..], c)
  }

  /** `strings.SplitN(s, c, 2)`. */
  function SplitTwo(s: string, c: char): seq<string> {
    var i := IndexOf(s, c);
    if i == |s| then [s] else [s[..i], s[i + 1..]]
  }

  lemma FirstIndex(a: string, c: char, b: string)
    requires c !in a
    ensures IndexOf(a + [c] + b, c) == |a|
    ensures (a + [c] + b)[..|a|] == a && (a + [c] + b)[|a| + 1..] == b
  {
    var s := a + [c] + b;
    assert forall k | 0 <= k < |a| :: s[k] == a[k];
    assert forall k | |a| < k <= |s| :: s[..k][|a|] == c;
  }

  lemma SplitAt(a: string, c: char, b: string)
    requires c !in a
    ensures Split(a + [c] + b, c) == [a] + Split(b, c) && SplitTwo(a + [c] + b, c) == [a, b]
  {
    FirstIndex(a, c, b);
  }

  lemma SplitNone(s: string, c: char)
    requires c !in s
    ensures Split(s, c) == [s] && SplitTwo(s, c) == [s]
  {
    assert forall k | 0 <= k < |s| :: s[k] in s;
  }

  function Total(parts: seq<string>): nat {
    if parts == [] then 0 else |parts[0]| + Total(parts[1..])
  }

  /** The parts hold no separator and nothing the string does not, and together with the
      separators they are as long as the string. */
  lemma {:induction false} SplitParts(s: string, c: char)
    ensures forall p | p in Split(s, c) :: c !in p && forall x | x in p :: x in s
    ensures Total(Split(s, c)) + |Split(s, c)| - 1 == |s|
    decreases |s|
  {
    var i := IndexOf(s, c);
    if i < |s| {
      SplitParts(s[i + 1..], c);
      assert Split(s, c)[1..] == Split(s[i + 1..], c);
    } else {
      assert s[..i] == s;
    }
  }

  // ---------------------------------------------------------------- printing

  function LocationString(sl: SourceLocation): string {
    if sl.dir == "" then sl.repo else sl.repo + "," + sl.dir
  }

  function ManifestString(mid: ManifestID): string {
    LocationString(mid.source) + if mid.flavor != "" then "~" + mid.flavor else ""
  }

  function DeploymentString(did: DeploymentID): string {
    did.cluster + ":" + ManifestString(did.manifestID)
  }

  // ---------------------------------------------------------------- parsing

  /** A string that starts with any other character chooses that character as its delimiter. */
  predicate Plain(c: char) {
    'A' <= c <= 'Z' || 'a' <= c <= 'z' || '0' <= c <= '9' || c == '.' || c == '/'
  }

  /** `parseChunks`. */
  function ParseChunks(s: string): seq<string> {
    if s == "" then [] else if Plain(s[0]) then Split(s, ',') else Split(s[1..], s[0])
  }

  /** `ParseSourceLocation`; None for its two errors. */
  function ParseSourceLocation(s: string): Option<SourceLocation> {
    var chunks := ParseChunks(s);
    if |chunks| > 2 then None
    else if |chunks| == 0 || |chunks[0]| == 0 then None
    else Some(SourceLocation(chunks[0], if |chunks| > 1 then chunks[1] else ""))
  }

  /** `(*SourceLocation).UnmarshalText`: what cannot be parsed is read as the empty location. */
  function UnmarshalLocation(s: string): SourceLocation {
    var parsed := ParseSourceLocation(s);
    if parsed.Some? then parsed.value else SourceLocation("", "")
  }

  /** `ParseManifestID`. */
  function ParseManifestID(s: string): Option<ManifestID> {
    var parts := Split(s, '~');
    if |parts| > 2 then None
    else Some(ManifestID(UnmarshalLocation(parts[0]), if |parts| == 2 then parts[1] else ""))
  }

  /** `ParseDeploymentID`. */
  function ParseDeploymentID(s: string): Option<DeploymentID> {
    if s == "" then None
    else
      var clusterManifest := SplitTwo(s, ':');
      if |clusterManifest| != 2 then None
      else
        var manifestID := ParseManifestID(clusterManifest[1]);
        if manifestID.None? then None else Some(DeploymentID(manifestID.value, clusterManifest[0]))
  }

  // ---------------------------------------------------------------- round trips

  /** The repository starts with a letter, a digit, a dot or a slash, and there is no comma. */
  predicate PrintableLocation(sl: SourceLocation) {
    && sl.repo != ""
    && ('a' <= sl.repo[0] <= 'z' || 'A' <= sl.repo[0] <= 'Z' || '0' <= sl.repo[0] <= '9' || sl.repo[0] in "./")
    && ',' !in sl.repo && ',' !in sl.dir
  }

  predicate PrintableManifest(mid: ManifestID) {
    && (PrintableLocation(mid.source) || mid.source == SourceLocation("", ""))
    && '~' !in mid.source.repo && '~' !in mid.source.dir && '~' !in mid.flavor
  }

  predicate PrintableDeployment(did: DeploymentID) {
    ':' !in did.cluster && PrintableManifest(did.manifestID)
  }

  /** The text of an identifier that has all four parts. */
  lemma PrintedForm(repo: string, dir: string, flavor: string, cluster: string)
    requires dir != "" && flavor != ""
    ensures DeploymentString(DeploymentID(ManifestID(SourceLocation(repo, dir), flavor), cluster))
            == cluster + ":" + repo + "," + dir + "~" + flavor
  {
    assert cluster + ":" + ((repo + "," + dir) + ("~" + flavor)) == cluster + ":" + repo + "," + dir + "~" + flavor;
  }

  lemma ChunksOf(s: string)
    requires s != ""
    ensures Total(ParseChunks(s)) + |ParseChunks(s)| - 1 == |s| - (if Plain(s[0]) then 0 else 1)
    ensures forall p | p in ParseChunks(s) :: forall x | x in p :: x in s
    ensures Plain(s[0]) ==> forall p | p in ParseChunks(s) :: ',' !in p
  {
    if Plain(s[0]) {
      SplitParts(s, ',');
    } else {
      SplitParts(s[1..], s[0]);
    }
  }

  /** A location is read back exactly if it has a repository, with a plain first character, and
      no comma. */
  lemma LocationRoundTrip(sl: SourceLocation)
    ensures ParseSourceLocation(LocationString(sl)) == Some(sl) <==> PrintableLocation(sl)
  {
    var s := LocationString(sl);
    if PrintableLocation(sl) {
      if sl.dir == "" {
        SplitNone(s, ',');
      } else {
        SplitAt(sl.repo, ',', sl.dir);
        SplitNone(sl.dir, ',');
      }
    }
    if ParseSourceLocation(s) == Some(sl) {
      var chunks := ParseChunks(s);
      ChunksOf(s);
      assert chunks == if |chunks| == 1 then [sl.repo] else [sl.repo, sl.dir];
      assert sl.repo in chunks && (sl.dir == "" || sl.dir in chunks);
      assert |chunks| == 2 ==> chunks[1..] == [sl.dir];
      assert Total(chunks) + |chunks| - 1 >= |s|;
      assert s[0] == sl.repo[0];
    }
  }

  lemma UnmarshalRoundTrip(sl: SourceLocation)
    ensures UnmarshalLocation(LocationString(sl)) == sl <==> PrintableLocation(sl) || sl == SourceLocation("", "")
  {
    LocationRoundTrip(sl);
  }

  lemma UnmarshalChars(s: string, x: char)
    requires x !in s
    ensures x !in UnmarshalLocation(s).repo && x !in UnmarshalLocation(s).dir
  {
    if s != "" {
      ChunksOf(s);
      var chunks := ParseChunks(s);
      assert forall i | 0 <= i < |chunks| :: chunks[i] in chunks;
    }
  }

  /** A manifest ID is read back exactly if its location is, or is empty, and there is no tilde. */
  lemma ManifestRoundTrip(mid: ManifestID)
    ensures ParseManifestID(ManifestString(mid)) == Some(mid) <==> PrintableManifest(mid)
  {
    var (l, s) := (LocationString(mid.source), ManifestString(mid));
    UnmarshalRoundTrip(mid.source);
    if '~' !in mid.source.repo && '~' !in mid.source.dir && '~' !in mid.flavor {
      if mid.flavor == "" {
        assert s == l;
        SplitNone(s, '~');
      } else {
        assert s == l + ['~'] + mid.flavor;
        SplitAt(l, '~', mid.flavor);
        SplitNone(mid.flavor, '~');
      }
    } else {
      SplitParts(s, '~');
      var parts := Split(s, '~');
      assert parts[0] in parts;
      UnmarshalChars(parts[0], '~');
      if |parts| == 2 { assert parts[1] in parts; }
    }
  }

  /** A deployment ID is read back exactly if its manifest ID is and its cluster's name has no
      colon. */
  lemma DeploymentRoundTrip(did: DeploymentID)
    ensures ParseDeploymentID(DeploymentString(did)) == Some(did) <==> PrintableDeployment(did)
  {
    var m := ManifestString(did.manifestID);
    var s := DeploymentString(did);
    assert s == did.cluster + [':'] + m;
    ManifestRoundTrip(did.manifestID);
    if ':' !in did.cluster {
      SplitAt(did.cluster, ':', m);
    } else {
      assert ':' !in SplitTwo(s, ':')[0];
    }
  }

  /** So printing keeps such identifiers apart. */
  lemma PrintingInjective(a: DeploymentID, b: DeploymentID)
    requires PrintableDeployment(a) && PrintableDeployment(b)
    ensures DeploymentString(a) == DeploymentString(b) <==> a == b
  {
    DeploymentRoundTrip(a);
    DeploymentRoundTrip(b);
  }

  /** But not others: a comma in the repository reads as the start of the directory. */
  lemma PrintingCollides(repo: string, dir: string, flavor: string, cluster: string)
    requires dir != ""
    ensures var a := DeploymentID(ManifestID(SourceLocation(repo, dir), flavor), cluster);
            var b := DeploymentID(ManifestID(SourceLocation(repo + "," + dir, ""), flavor), cluster);
            a != b && DeploymentString(a) == DeploymentString(b)
  {}

  /** Every character of a string other than the separator is in some part. */
  lemma {:induction false} SplitCovers(s: string, c: char, x: char)
    requires x in s && x != c
    ensures exists p :: p in Split(s, c) && x in p
    decreases |s|
  {
    var i := IndexOf(s, c);
    if i == |s| {
      assert s in Split(s, c);
    } else if x in s[..i] {
      assert s[..i] in Split(s, c);
    } else {
      assert s == s[..i] + [s[i]] + s[i + 1..];
      SplitCovers(s[i + 1..], c, x);
      var p :| p in Split(s[i + 1..], c) && x in p;
      assert p in Split(s, c);
    }
  }

  lemma FirstPart(s: string, c: char)
    ensures Split(s, c)[0] != "" ==> s != "" && Split(s, c)[0][0] == s[0]
  {}

  /** The text chooses no delimiter of its own, or could as well have used the comma. */
  predicate CommaWouldDo(s: string) {
    s != "" && (Plain(s[0]) || (|s| > 1 && Plain(s[1]) && (s[0] == ',' || ',' !in s[1..])))
  }

  /** What parses need not print as something that parses to the same. It does, exactly, if the
      text starts plainly, or behind its own delimiter, which is or could be the comma. */
  lemma ParsedPrintable(s: string)
    requires ParseSourceLocation(s).Some?
    ensures var sl := ParseSourceLocation(s).value;
            ParseSourceLocation(LocationString(sl)) == Some(sl) <==> CommaWouldDo(s)
  {
    var sl := ParseSourceLocation(s).value;
    LocationRoundTrip(sl);
    var chunks := ParseChunks(s);
    assert chunks == if |chunks| == 1 then [sl.repo] else [sl.repo, sl.dir];
    assert sl.repo in chunks && (|chunks| == 1 ==> sl.dir == "") && (|chunks| == 2 ==> sl.dir in chunks);
    if Plain(s[0]) {
      FirstPart(s, ',');
      SplitParts(s, ',');
    } else {
      FirstPart(s[1..], s[0]);
      SplitParts(s[1..], s[0]);
      if ',' in s[1..] && s[0] != ',' {
        SplitCovers(s[1..], s[0], ',');
      }
    }
  }

  /** It happens: a repository that needs another delimiter is not read back. */
  lemma ParsedNotPrintable()
    ensures ParseSourceLocation("*-a*b") == Some(SourceLocation("-a", "b"))
    ensures !PrintableLocation(SourceLocation("-a", "b"))
  {
    SplitAt("-a", '*', "b");
    SplitNone("b", '*');
    assert "*-a*b"[1..] == "-a" + ['*'] + "b";
  }

  // ---------------------------------------------------------------- what does not parse

  lemma {:induction false} SplitCount(s: string, c: char)
    ensures |Split(s, c)| == multiset(s)[c] + 1
    decreases |s|
  {
    var i := IndexOf(s, c);
    if i < |s| {
      assert s == s[..i] + [s[i]] + s[i + 1..];
      assert multiset(s[..i])[c] == 0;
      SplitCount(s[i + 1..], c);
      assert multiset(s)[c] == multiset(s[..i])[c] + 1 + multiset(s[i + 1..])[c];
    } else {
      assert s[..i] == s;
      assert multiset(s)[c] == 0;
    }
  }

  /** A location is refused exactly if its text is empty, has more than one delimiter, or has
      nothing before it. */
  lemma LocationRefused(s: string)
    ensures ParseSourceLocation(s) == None
            <==> || s == ""
                 || (Plain(s[0]) && multiset(s)[','] > 1)
                 || (!Plain(s[0]) && (|s| == 1 || s[1] == s[0] || multiset(s[1..])[s[0]] > 1))
  {
    if s != "" && Plain(s[0]) {
      SplitCount(s, ',');
    } else if s != "" {
      SplitCount(s[1..], s[0]);
    }
  }

  /** A manifest ID is refused exactly if its text has more than one tilde; a location that is
      refused reads as empty. */
  lemma ManifestRefused(s: string)
    ensures ParseManifestID(s) == None <==> multiset(s)['~'] > 1
    ensures ParseSourceLocation(s) == None ==> UnmarshalLocation(s) == SourceLocation("", "")
  {
    SplitCount(s, '~');
  }

  /** A deployment ID is refused exactly if its text has no colon, or more than one tilde after the
      first. */
  lemma DeploymentRefused(cluster: string, rest: string)
    requires ':' !in cluster
    ensures ParseDeploymentID(cluster) == None
    ensures ParseDeploymentID(cluster + ":" + rest) == None <==> multiset(rest)['~'] > 1
  {
    SplitNone(cluster, ':');
    assert cluster + ":" + rest == cluster + [':'] + rest;
    SplitAt(cluster, ':', rest);
    ManifestRefused(rest);
    hide ParseManifestID;
  }
}
