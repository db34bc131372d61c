/** Decoding and encoding identity files undo each other. */
module IdentityRoundTrip {
  import opened IdentityFile

  // ---------- Trimming ----------

  lemma {:induction false} TrimLeftFacts(s: string)
    ensures var t := TrimLeft(s); |t| <= |s| && t == s[|s| - |t|..] && (t != "" ==> !IsSpace(t[0]))
  {
    if s != "" && IsSpace(s[0]) {
      TrimLeftFacts(s[1..]);
    }
  }

  lemma {:induction false} TrimRightFacts(s: string)
    ensures var t := TrimRight(s); |t| <= |s| && t == s[..|t|] && (t != "" ==> !IsSpace(t[|t| - 1]))
  {
    if s != "" && IsSpace(s[|s| - 1]) {
      TrimRightFacts(s[..|s| - 1]);
    }
  }

  /** A line as the decoder stores it: trimmed, in one piece and short enough to be scanned. */
  predicate Clean(line: string) {
    Trim(line) == line && '\n' !in line && |line| <= MAX_LINE
  }

  lemma TrimIsClean(s: string)
    requires '\n' !in s && |s| <= MAX_LINE
    ensures Clean(Trim(s))
  {
    TrimLeftFacts(s);
    TrimRightFacts(TrimLeft(s));
    var t := Trim(s);
    if t != "" {
      assert t[0] == TrimLeft(s)[0];
    }
    assert forall c :: c in t ==> c in TrimLeft(s) && c in s;
  }

  // ---------- Splitting ----------

  lemma {:induction false} LinesHaveNoNewline(s: string)
    ensures s != "" ==> Lines(s) != []
    ensures forall k :: 0 <= k < |Lines(s)| ==> '\n' !in Lines(s)[k]
  {
    if s != "" { LinesHaveNoNewline(s[1..]); }
  }

  predicate Terminated(s: string) { s == "" || s[|s| - 1] == '\n' }

  /** After a newline the scanner starts afresh. */
  lemma {:induction false} LinesConcat(a: string, b: string)
    requires Terminated(a)
    ensures Lines(a + b) == Lines(a) + Lines(b)
  {
    if a == "" {
      assert a + b == b;
    } else {
      assert (a + b)[1..] == a[1..] + b;
      LinesConcat(a[1..], b);
      LinesHaveNoNewline(a[1..]);
    }
  }

  lemma {:induction false} LinesOfLine(line: string)
    requires '\n' !in line
    ensures Lines(line + "\n") == [line]
  {
    if line == "" {
      assert (line + "\n")[1..] == "";
    } else {
      assert (line + "\n")[1..] == line[1..] + "\n";
      LinesOfLine(line[1..]);
      assert [line[0]] + line[1..] == line;
    }
  }

  function Join(lines: seq<string>): string {
    if lines == [] then "" else Join(lines[..|lines| - 1]) + (lines[|lines| - 1] + "\n")
  }

  lemma {:induction false} FeedConcat(p: Parser, a: seq<string>, b: seq<string>)
    ensures Feed(p, a + b) == Feed(Feed(p, a), b)
    decreases |a|
  {
    if a == [] {
      assert a + b == b;
    } else {
      assert (a + b)[1..] == a[1..] + b;
      FeedConcat(Take(p, Trim(a[0])), a[1..], b);
    }
  }

  // ---------- Canonical identities ----------

  /** A one-line component of the given kind. */
  predicate LineText(s: string, kind: Kind) {
    s != "" && s[|s| - 1] == '\n' && Clean(s[..|s| - 1]) && KindOf(s[..|s| - 1]) == kind
  }

  /** The lines of a block from its first line on, before its last one is there. */
  predicate OpenBlock(lines: seq<string>) {
    && lines != [] && KindOf(lines[0]) == BeginLine
    && forall k :: 0 <= k < |lines| ==> Clean(lines[k]) && !IsEnd(lines[k])
  }

  ghost predicate BlockText(s: string) {
    exists body, end :: OpenBlock(body) && Clean(end) && IsEnd(end) && s == Join(body) + (end + "\n")
  }

  /** The identities that have a file: each component is absent or well formed, and the blocks
      fill up in the order key, certificate, authorities. */
  ghost predicate Canonical(i: Identity) {
    && (i.privateKey == "" || BlockText(i.privateKey))
    && (i.sshCert == "" || LineText(i.sshCert, CertLine))
    && (i.tlsCert == "" || (BlockText(i.tlsCert) && i.privateKey != ""))
    && (forall k :: 0 <= k < |i.sshCAs| ==> LineText(i.sshCAs[k], AuthorityLine))
    && AllBlocks(i.tlsCAs)
    && (i.tlsCAs != [] ==> i.tlsCert != "")
  }

  // ---------- Whatever decodes is canonical ----------

  ghost predicate ParserInv(p: Parser) {
    && Canonical(p.ident)
    && (p.pem != "" ==> exists body :: OpenBlock(body) && p.pem == Join(body))
  }

  lemma TakeInBlock(p: Parser, line: string)
    requires ParserInv(p) && Clean(line) && p.pem != ""
    ensures ParserInv(Take(p, line))
  {
    var body :| OpenBlock(body) && p.pem == Join(body);
    if IsEnd(line) {
      assert BlockText(p.pem + (line + "\n"));
    } else {
      assert (body + [line])[..|body|] == body;
      assert OpenBlock(body + [line]) && p.pem + (line + "\n") == Join(body + [line]);
    }
  }

  lemma TakeBetween(p: Parser, line: string)
    requires ParserInv(p) && Clean(line) && p.pem == ""
    ensures ParserInv(Take(p, line))
  {
    assert (line + "\n")[..|line|] == line;
    if KindOf(line) == BeginLine {
      BeginIsNotEnd(line);
      var body := [line];
      assert body[..0] == [] && Join(body) == "" + (line + "\n");
      assert OpenBlock(body) && line + "\n" == Join(body);
    }
  }

  lemma {:induction false} FeedInv(p: Parser, lines: seq<string>)
    requires ParserInv(p) && AllShort(lines)
    requires forall k :: 0 <= k < |lines| ==> '\n' !in lines[k]
    ensures ParserInv(Feed(p, lines))
    decreases |lines|
  {
    if lines != [] {
      TrimIsClean(lines[0]);
      if p.pem != "" { TakeInBlock(p, Trim(lines[0])); } else { TakeBetween(p, Trim(lines[0])); }
      FeedInv(Take(p, Trim(lines[0])), lines[1..]);
    }
  }

  lemma DecodedIsCanonical(text: string)
    requires Decode(text).Ok?
    ensures Canonical(Decode(text).ident)
  {
    LinesHaveNoNewline(text);
    FeedInv(Parser(EMPTY, ""), Lines(text));
  }

  // ---------- A canonical identity survives ----------

  predicate CleanAll(lines: seq<string>) {
    forall k :: 0 <= k < |lines| ==> Clean(lines[k])
  }

  /** A piece of a file: complete lines that take the parser from `p` to `q`. */
  ghost predicate Moves(p: Parser, text: string, q: Parser) {
    Terminated(text) && CleanAll(Lines(text)) && Feed(p, Lines(text)) == q
  }

  lemma MovesConcat(p: Parser, a: string, q: Parser, b: string, r: Parser)
    requires Moves(p, a, q) && Moves(q, b, r)
    ensures Moves(p, a + b, r)
  {
    LinesConcat(a, b);
    FeedConcat(p, Lines(a), Lines(b));
  }

  lemma LineMoves(p: Parser, line: string)
    requires Clean(line)
    ensures Moves(p, line + "\n", Take(p, line))
  {
    LinesOfLine(line);
  }

  lemma AbsentMoves(i: Identity)
    ensures Moves(Parser(i, ""), WithNewline(""), Parser(i, ""))
  {
    assert Clean("") && KindOf("") == OtherLine;
    LineMoves(Parser(i, ""), "");
    assert "" + "\n" == "\n";
  }

  lemma OneMoreLine(p: Parser, q: Parser, written: string, line: string)
    requires Clean(line) && Moves(p, written, q)
    ensures Moves(p, written + (line + "\n"), Take(q, line))
  {
    LineMoves(q, line);
    MovesConcat(p, written, q, line + "\n", Take(q, line));
  }

  lemma FirstLineMoves(i: Identity, body: seq<string>)
    requires OpenBlock(body) && |body| == 1
    ensures Moves(Parser(i, ""), Join(body), Parser(i, Join(body)))
  {
    LineMoves(Parser(i, ""), body[0]);
    assert body[..0] == [] && Join(body) == "" + (body[0] + "\n") == body[0] + "\n";
  }

  lemma {:induction false} OpenMoves(i: Identity, body: seq<string>)
    requires OpenBlock(body)
    ensures Moves(Parser(i, ""), Join(body), Parser(i, Join(body)))
  {
    if |body| == 1 {
      FirstLineMoves(i, body);
    } else {
      var init, last := body[..|body| - 1], body[|body| - 1];
      OpenMoves(i, init);
      OneMoreLine(Parser(i, ""), Parser(i, Join(init)), Join(init), last);
      assert Take(Parser(i, Join(init)), last) == Parser(i, Join(body));
    }
  }

  lemma BlockMoves(i: Identity, s: string)
    requires BlockText(s)
    ensures WithNewline(s) == s && s != "" && Moves(Parser(i, ""), s, Parser(Place(i, s), ""))
  {
    var body, end :| OpenBlock(body) && Clean(end) && IsEnd(end) && s == Join(body) + (end + "\n");
    OpenMoves(i, body);
    LineMoves(Parser(i, Join(body)), end);
    MovesConcat(Parser(i, ""), Join(body), Parser(i, Join(body)), end + "\n", Parser(Place(i, s), ""));
  }

  lemma LineTextMoves(i: Identity, s: string, kind: Kind)
    requires LineText(s, kind)
    ensures WithNewline(s) == s && Moves(Parser(i, ""), s, Take(Parser(i, ""), s[..|s| - 1]))
    ensures s[..|s| - 1] + "\n" == s
  {
    assert s[..|s| - 1] + "\n" == s;
    LineMoves(Parser(i, ""), s[..|s| - 1]);
  }

  lemma OneMoreAuthority(p: Parser, j: Identity, written: string, last: string)
    requires LineText(last, AuthorityLine) && Moves(p, written, Parser(j, ""))
    ensures Moves(p, written + WithNewline(last), Parser(j.(sshCAs := j.sshCAs + [last]), ""))
  {
    LineTextMoves(j, last, AuthorityLine);
    MovesConcat(p, written, Parser(j, ""), last, Parser(j.(sshCAs := j.sshCAs + [last]), ""));
  }

  lemma {:induction false} AuthoritiesMove(i: Identity, cas: seq<string>)
    requires forall k :: 0 <= k < |cas| ==> LineText(cas[k], AuthorityLine)
    ensures Moves(Parser(i, ""), WriteAll(cas), Parser(i.(sshCAs := i.sshCAs + cas), ""))
  {
    if cas == [] {
      assert i.sshCAs + cas == i.sshCAs;
    } else {
      var init, last := cas[..|cas| - 1], cas[|cas| - 1];
      var j := i.(sshCAs := i.sshCAs + init);
      assert i.sshCAs + cas == j.sshCAs + [last];
      assert Moves(Parser(i, ""), WriteAll(init), Parser(j, "")) by {
        AuthoritiesMove(i, init);
      }
      OneMoreAuthority(Parser(i, ""), j, WriteAll(init), last);
    }
  }

  lemma OneMoreBlock(p: Parser, j: Identity, written: string, last: string)
    requires BlockText(last) && Moves(p, written, Parser(j, ""))
    ensures Moves(p, written + WithNewline(last), Parser(Place(j, last), ""))
  {
    BlockMoves(j, last);
    MovesConcat(p, written, Parser(j, ""), last, Parser(Place(j, last), ""));
  }

  ghost predicate AllBlocks(cas: seq<string>) {
    forall k :: 0 <= k < |cas| ==> BlockText(cas[k])
  }

  function PlaceAll(i: Identity, blocks: seq<string>): Identity {
    if blocks == [] then i else Place(PlaceAll(i, blocks[..|blocks| - 1]), blocks[|blocks| - 1])
  }

  lemma {:induction false} PlaceAllAuthorities(i: Identity, cas: seq<string>)
    requires i.privateKey != "" && i.tlsCert != ""
    ensures PlaceAll(i, cas) == i.(tlsCAs := i.tlsCAs + cas)
  {
    if cas == [] {
      assert i.tlsCAs + cas == i.tlsCAs;
    } else {
      PlaceAllAuthorities(i, cas[..|cas| - 1]);
      assert i.tlsCAs + cas == (i.tlsCAs + cas[..|cas| - 1]) + [cas[|cas| - 1]];
    }
  }

  lemma {:induction false} BlocksMove(i: Identity, blocks: seq<string>)
    requires AllBlocks(blocks)
    ensures Moves(Parser(i, ""), WriteAll(blocks), Parser(PlaceAll(i, blocks), ""))
  {
    if blocks != [] {
      var init := blocks[..|blocks| - 1];
      BlocksMove(i, init);
      OneMoreBlock(Parser(i, ""), PlaceAll(i, init), WriteAll(init), blocks[|blocks| - 1]);
    }
  }

  /** The key, the SSH certificate and the TLS certificate. */
  lemma HeadMoves(i: Identity)
    requires Canonical(i)
    ensures Moves(Parser(EMPTY, ""),
      WithNewline(i.privateKey) + WithNewline(i.sshCert) + WithNewline(i.tlsCert),
      Parser(Identity(i.privateKey, i.sshCert, i.tlsCert, [], []), ""))
  {
    var i1 := EMPTY.(privateKey := i.privateKey);
    var i2 := i1.(sshCert := i.sshCert);
    var a, b, c := WithNewline(i.privateKey), WithNewline(i.sshCert), WithNewline(i.tlsCert);
    if i.privateKey == "" { AbsentMoves(EMPTY); } else { BlockMoves(EMPTY, i.privateKey); }
    assert Moves(Parser(EMPTY, ""), a, Parser(i1, ""));
    if i.sshCert == "" { AbsentMoves(i1); } else { LineTextMoves(i1, i.sshCert, CertLine); }
    assert Moves(Parser(i1, ""), b, Parser(i2, ""));
    if i.tlsCert == "" { AbsentMoves(i2); } else { BlockMoves(i2, i.tlsCert); }
    MovesConcat(Parser(EMPTY, ""), a, Parser(i1, ""), b, Parser(i2, ""));
    MovesConcat(Parser(EMPTY, ""), a + b, Parser(i2, ""), c, Parser(i2.(tlsCert := i.tlsCert), ""));
  }

  lemma TailMoves(i: Identity)
    requires Canonical(i)
    ensures Moves(Parser(i.(sshCAs := [], tlsCAs := []), ""), WriteAll(i.sshCAs) + WriteAll(i.tlsCAs), Parser(i, ""))
  {
    var j := i.(sshCAs := [], tlsCAs := []);
    var k := i.(tlsCAs := []);
    AuthoritiesMove(j, i.sshCAs);
    assert [] + i.sshCAs == i.sshCAs;
    if i.tlsCAs != [] {
      BlocksMove(k, i.tlsCAs);
      PlaceAllAuthorities(k, i.tlsCAs);
      assert [] + i.tlsCAs == i.tlsCAs;
    }
    MovesConcat(Parser(j, ""), WriteAll(i.sshCAs), Parser(k, ""), WriteAll(i.tlsCAs), Parser(i, ""));
  }

  lemma WholeFile(text: string, i: Identity)
    requires Moves(Parser(EMPTY, ""), text, Parser(i, ""))
    ensures Decode(text) == Ok(i)
  {}

  lemma EncodeParts(i: Identity)
    ensures Encode(i) ==
      (WithNewline(i.privateKey) + WithNewline(i.sshCert) + WithNewline(i.tlsCert))
      + (WriteAll(i.sshCAs) + WriteAll(i.tlsCAs))
  {}

  /** Decoding what was encoded gives the identity back, for every identity that has a file. */
  lemma RoundTrip(i: Identity)
    requires Canonical(i)
    ensures Decode(Encode(i)) == Ok(i)
  {
    var head := WithNewline(i.privateKey) + WithNewline(i.sshCert) + WithNewline(i.tlsCert);
    var tail := WriteAll(i.sshCAs) + WriteAll(i.tlsCAs);
    HeadMoves(i);
    TailMoves(i);
    MovesConcat(Parser(EMPTY, ""), head, Parser(i.(sshCAs := [], tlsCAs := []), ""), tail, Parser(i, ""));
    WholeFile(head + tail, i);
    EncodeParts(i);
  }

  /** Rewriting a file that decodes does not change what it means, and the canonical
      identities are exactly those some file decodes to. */
  lemma DecodeEncodeDecode(text: string)
    ensures Decode(text).Ok? ==> Decode(Encode(Decode(text).ident)) == Decode(text)
    ensures forall i :: Canonical(i) <==> exists t :: Decode(t) == Ok(i)
  {
    if Decode(text).Ok? {
      DecodedIsCanonical(text);
      RoundTrip(Decode(text).ident);
    }
    forall i ensures Canonical(i) <==> exists t :: Decode(t) == Ok(i) {
      if Canonical(i) {
        RoundTrip(i);
      }
      forall t | Decode(t) == Ok(i) ensures Canonical(i) {
        DecodedIsCanonical(t);
      }
    }
  }
}
