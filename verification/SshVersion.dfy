/** The SSH client identification string (section 4.2 of RFC 4253) that carries a version and
    a list of features (api/ssh/client.go:33-143). */
module SshVersion {
  import opened Text

  const PREFIX := "SSH-2.0-Teleport"

  datatype Parsed =
    | Client(version: string, features: seq<string>)
    | NotTeleport | BadCharacters | NoUnderscore | EmptyVersion

  predicate Printable(s: string) { forall i :: 0 <= i < |s| ==> ' ' <= s[i] <= '~' }

  function Index(s: string, c: char): (k: nat)
    ensures k <= |s| && c !in s[..k] && (k < |s| ==> s[k] == c)
  {
    if s == "" || s[0] == c then 0 else
      var k := Index(s[1..], c);
      assert s[..k + 1] == [s[0]] + s[1..][..k];
      k + 1
  }

  lemma IndexAt(s: string, c: char, k: nat)
    requires k <= |s| && c !in s[..k] && (k < |s| ==> s[k] == c)
    ensures Index(s, c) == k
  {}

  function Join(features: seq<string>): string
    requires features != []
  {
    if |features| == 1 then features[0] else features[0] + "," + Join(features[1..])
  }

  function Split(s: string): seq<string> {
    var k := Index(s, ',');
    if k == |s| then [s] else [s[..k]] + Split(s[k + 1..])
  }

  /** `ClientVersionWithFeatures`, for a build with the given version. */
  function Print(version: string, features: seq<string>): string {
    PREFIX + "_" + version + if features == [] then "" else " " + Join(features)
  }

  /** `ParseClientVersion`; a nil feature list is empty. */
  function Parse(s: string): Parsed {
    if !HasPrefix(s, PREFIX) then NotTeleport
    else if !Printable(s) then BadCharacters
    else
      var rest := s[|PREFIX|..];
      if rest == "" || rest[0] != '_' then NoUnderscore else ParseRest(rest[1..])
  }

  function ParseRest(rest: string): Parsed {
    var k := Index(rest, ' ');
    if k == 0 then EmptyVersion
    else if k == |rest| || k + 1 == |rest| then Client(rest[..k], [])
    else Client(rest[..k], Split(rest[k + 1..]))
  }

  datatype Support = Answer(supported: bool) | Invalid(why: Parsed)

  function IsFeatureSupported(s: string, feature: string): Support {
    var p := Parse(s);
    if p.Client? then Answer(feature in p.features) else Invalid(p)
  }

  // ---------- Splitting and joining ----------

  predicate CommaFree(features: seq<string>) {
    forall i :: 0 <= i < |features| ==> ',' !in features[i]
  }

  predicate AllPrintable(features: seq<string>) {
    forall i :: 0 <= i < |features| ==> Printable(features[i])
  }

  lemma SplitCons(f: string, t: string)
    requires ',' !in f
    ensures Split(f + "," + t) == [f] + Split(t)
  {
    var s := f + "," + t;
    assert s[..|f|] == f && s[|f|] == ',' && s[|f| + 1..] == t;
    IndexAt(s, ',', |f|);
  }

  lemma {:induction false} SplitJoin(features: seq<string>)
    requires features != [] && CommaFree(features)
    ensures Split(Join(features)) == features
  {
    var f, s := features[0], Join(features);
    if |features| == 1 {
      assert s[..|s|] == s;
      IndexAt(s, ',', |s|);
    } else {
      var rest := features[1..];
      SplitJoin(rest);
      SplitCons(f, Join(rest));
      assert features == [f] + rest;
    }
  }

  lemma CutAt(s: string, k: nat)
    requires k < |s|
    ensures s == s[..k] + [s[k]] + s[k + 1..]
  {}

  lemma JoinCons(first: string, rest: seq<string>)
    requires rest != []
    ensures Join([first] + rest) == first + "," + Join(rest)
  {}

  lemma {:induction false} JoinSplit(s: string)
    ensures Split(s) != [] && CommaFree(Split(s)) && Join(Split(s)) == s
    decreases |s|
  {
    var k := Index(s, ',');
    if k == |s| {
      assert s[..k] == s;
    } else {
      JoinSplit(s[k + 1..]);
      JoinCons(s[..k], Split(s[k + 1..]));
      CutAt(s, k);
    }
  }

  lemma PrintableConcat(a: string, b: string)
    ensures Printable(a + b) <==> Printable(a) && Printable(b)
  {
    assert forall i :: 0 <= i < |a| ==> (a + b)[i] == a[i];
    assert forall i :: 0 <= i < |b| ==> (a + b)[|a| + i] == b[i];
  }

  lemma {:induction false} PrintableJoin(features: seq<string>)
    requires features != []
    ensures Printable(Join(features)) <==> AllPrintable(features)
  {
    var f := features[0];
    if |features| > 1 {
      var rest := features[1..];
      PrintableJoin(rest);
      PrintableConcat(f + ",", Join(rest));
      PrintableConcat(f, ",");
      assert features == [f] + rest;
    }
  }

  // ---------- Round trip ----------

  predicate GoodVersion(version: string) { version != "" && ' ' !in version && Printable(version) }

  function Tail(version: string, features: seq<string>): string {
    version + if features == [] then "" else " " + Join(features)
  }

  lemma TailPrintable(version: string, features: seq<string>)
    ensures Printable(Tail(version, features)) <==> Printable(version) && AllPrintable(features)
  {
    if features == [] {
      assert Tail(version, features) == version;
    } else {
      PrintableConcat(version, " " + Join(features));
      PrintableConcat(" ", Join(features));
      PrintableJoin(features);
    }
  }

  lemma PrintParts(version: string, features: seq<string>)
    ensures Print(version, features) == (PREFIX + "_") + Tail(version, features)
  {}

  /** Everything after the prefix and the underscore is parsed by itself. */
  lemma ParseParts(t: string)
    ensures Parse((PREFIX + "_") + t) == if Printable(t) then ParseRest(t) else BadCharacters
  {
    var s := (PREFIX + "_") + t;
    assert s[..|PREFIX|] == PREFIX && s[|PREFIX|] == '_' && s[|PREFIX|..][1..] == t;
    PrintableConcat(PREFIX + "_", t);
  }

  lemma ParseTail(version: string, features: seq<string>)
    requires version != "" && ' ' !in version
    ensures ParseRest(Tail(version, features)) ==
      Client(version, if features == [] || Join(features) == "" then [] else Split(Join(features)))
  {
    var t := Tail(version, features);
    assert t[..|version|] == version;
    IndexAt(t, ' ', |version|);
    if features != [] {
      assert t[|version| + 1..] == Join(features);
    }
  }

  lemma {:induction false} EmptyJoin(features: seq<string>)
    requires features != []
    ensures Join(features) == "" <==> features == [""]
  {}

  /** Parsing what was printed gives the version and the features back exactly when every
      feature is printable and has no comma, and the list is not the one empty string. */
  lemma RoundTrip(version: string, features: seq<string>)
    requires GoodVersion(version)
    ensures Parse(Print(version, features)) == Client(version, features)
       <==> AllPrintable(features) && CommaFree(features) && features != [""]
  {
    PrintParts(version, features);
    ParseParts(Tail(version, features));
    TailPrintable(version, features);
    ParseTail(version, features);
    if features != [] {
      EmptyJoin(features);
      JoinSplit(Join(features));
      if CommaFree(features) {
        SplitJoin(features);
      }
    }
  }

  lemma RestWasTail(rest: string)
    requires ParseRest(rest).Client? && Printable(rest)
    ensures var p := ParseRest(rest);
      && GoodVersion(p.version) && CommaFree(p.features)
      && (rest == Tail(p.version, p.features) || (p.features == [] && rest == Tail(p.version, []) + " "))
  {
    var k := Index(rest, ' ');
    if k < |rest| {
      CutAt(rest, k);
      JoinSplit(rest[k + 1..]);
      assert rest == rest[..k] + (" " + rest[k + 1..]);
      PrintableConcat(rest[..k], " " + rest[k + 1..]);
    } else {
      assert rest[..k] == rest;
    }
  }

  lemma PrintableIs(s: string)
    ensures Printable(s) <==> forall c :: c in s ==> 32 <= c as int <= 126
  {
    if forall c :: c in s ==> 32 <= c as int <= 126 {
      assert forall i :: 0 <= i < |s| ==> s[i] in s;
    }
  }

  /** Which inputs are refused, and why: the first of four tests that fails decides. */
  lemma ParseOutcomes(s: string)
    ensures Parse(s) == NotTeleport <==> !("SSH-2.0-Teleport" <= s)
    ensures "SSH-2.0-Teleport" <= s ==>
      var printable := forall c :: c in s ==> 32 <= c as int <= 126;
      && (Parse(s) == BadCharacters <==> !printable)
      && (Parse(s) == NoUnderscore <==> printable && !("SSH-2.0-Teleport_" <= s))
      && (Parse(s) == EmptyVersion <==>
          printable && "SSH-2.0-Teleport_" <= s && (|s| == 17 || s[17] == ' '))
  {
    if "SSH-2.0-Teleport" <= s {
      var rest := s[16..];
      assert s == "SSH-2.0-Teleport" + rest;
      assert "SSH-2.0-Teleport" + "_" == "SSH-2.0-Teleport_";
      assert "SSH-2.0-Teleport_" <= s <==> rest != "" && rest[0] == '_';
      PrintableIs(s);
      if "SSH-2.0-Teleport_" <= s {
        var version := rest[1..];
        assert |s| > 17 ==> version[0] == s[17];
        assert Index(version, ' ') == 0 <==> version == "" || version[0] == ' ';
      }
    }
  }

  /** Whatever parses was printed from what it parses to, up to one trailing space before an
      empty feature list. */
  lemma ParsedWasPrinted(s: string)
    requires Parse(s).Client?
    ensures var p := Parse(s);
      && GoodVersion(p.version) && CommaFree(p.features)
      && (s == Print(p.version, p.features) || (p.features == [] && s == Print(p.version, []) + " "))
  {
    var p, rest := Parse(s), s[|PREFIX|..][1..];
    assert s == (PREFIX + "_") + rest by { CutAt(s, |PREFIX|); }
    ParseParts(rest);
    RestWasTail(rest);
    PrintParts(p.version, p.features);
    PrintParts(p.version, []);
    assert (PREFIX + "_") + (Tail(p.version, []) + " ") == ((PREFIX + "_") + Tail(p.version, [])) + " ";
  }

  /** The features for which membership is what a parser of the printed form answers. */
  ghost predicate Decided(version: string, features: seq<string>) {
    forall f :: IsFeatureSupported(Print(version, features), f) == Answer(f in features)
  }

  /** A printed list that is decided is printable and comma-free: the parser finds the same
      elements, and those have no commas. */
  lemma DecidedIsClean(version: string, features: seq<string>)
    requires GoodVersion(version) && Decided(version, features)
    ensures AllPrintable(features) && CommaFree(features) && features != [""]
  {
    var s := Print(version, features);
    assert IsFeatureSupported(s, "") == Answer("" in features);
    var p := Parse(s);
    ParsedWasPrinted(s);
    assert forall f :: IsFeatureSupported(s, f) == Answer(f in p.features);
    assert forall f :: f in features <==> f in p.features;
    forall i | 0 <= i < |features| ensures ',' !in features[i] {
      assert features[i] in features;
    }
    PrintParts(version, features);
    ParseParts(Tail(version, features));
    TailPrintable(version, features);
    RoundTrip(version, features);
  }

  /** Membership of every feature is decided by the printed form exactly for the lists that
      survive the round trip. */
  lemma FeatureDecided(version: string, features: seq<string>)
    requires GoodVersion(version)
    ensures Decided(version, features) <==> AllPrintable(features) && CommaFree(features) && features != [""]
  {
    if Decided(version, features) {
      DecidedIsClean(version, features);
    } else {
      RoundTrip(version, features);
    }
  }
}
