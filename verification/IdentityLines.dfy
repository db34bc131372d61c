/** What the decoder of identity files finds in a file, said in terms of the lines that are in
    it (api/identityfile/identityfile.go:248-322). */
module IdentityLines {
  import opened IdentityFile
  import opened IdentityRoundTrip

  // ---------- Trimming ----------

  predicate White(c: char) { c as int in {9, 10, 11, 12, 13, 32} }

  lemma {:induction false} TrimLeftExact(s: string)
    ensures var t := TrimLeft(s);
      |t| <= |s| && t == s[|s| - |t|..] && (t != "" ==> !White(t[0]))
      && forall k :: 0 <= k < |s| - |t| ==> White(s[k])
  {
    if s != "" && IsSpace(s[0]) {
      TrimLeftExact(s[1..]);
      assert forall k :: 0 < k < |s| ==> s[k] == s[1..][k - 1];
    }
  }

  lemma {:induction false} TrimRightExact(s: string)
    ensures var t := TrimRight(s);
      |t| <= |s| && t == s[..|t|] && (t != "" ==> !White(t[|t| - 1]))
      && forall k :: |t| <= k < |s| ==> White(s[k])
  {
    if s != "" && IsSpace(s[|s| - 1]) {
      TrimRightExact(s[..|s| - 1]);
    }
  }

  /** What is left is `s[i..j]`: white space around it is gone, and none is left at its ends. */
  predicate TrimmedTo(s: string, i: nat, j: nat) {
    && i <= j <= |s|
    && (forall k :: 0 <= k < i ==> White(s[k])) && (forall k :: j <= k < |s| ==> White(s[k]))
    && (i < j ==> !White(s[i]) && !White(s[j - 1]))
  }

  lemma InnerTrim(s: string, t: string, i: nat, n: nat)
    requires i <= |s| && t == s[i..] && n <= |t| && (forall k :: 0 <= k < i ==> White(s[k]))
    requires (forall k :: n <= k < |t| ==> White(t[k])) && (n > 0 ==> !White(t[0]) && !White(t[n - 1]))
    ensures TrimmedTo(s, i, i + n) && t[..n] == s[i..i + n]
  {
    assert forall k :: i <= k < |s| ==> s[k] == t[k - i];
  }

  /** Trimming removes all white space at both ends and nothing else. */
  lemma TrimExact(s: string) returns (i: nat, j: nat)
    ensures TrimmedTo(s, i, j) && Trim(s) == s[i..j]
  {
    var t := TrimLeft(s);
    TrimLeftExact(s);
    TrimRightExact(t);
    i := |s| - |t|;
    j := i + |Trim(s)|;
    InnerTrim(s, t, i, |Trim(s)|);
  }

  // ---------- Kinds of lines ----------

  /** `name-cert-vNN@openssh.com`. */
  predicate CertType(v: string, name: string, d: char, e: char) {
    && name != "" && (forall c :: c in name ==> 'a' <= c <= 'z' || '0' <= c <= '9' || c == '-')
    && '0' <= d <= '9' && '0' <= e <= '9'
    && v == name + "-cert-v" + [d, e] + "@openssh.com"
  }

  lemma CertTypeShape(v: string)
    ensures IsSSHCertType(v) <==> exists name, d, e :: CertType(v, name, d, e)
  {
    var n := |v|;
    if IsSSHCertType(v) {
      var name := v[..n - 21];
      assert v == name + v[n - 21..n - 14] + [v[n - 14], v[n - 13]] + v[n - 12..];
      assert CertType(v, name, v[n - 14], v[n - 13]);
    }
    if name, d, e :| CertType(v, name, d, e) {
      assert n == |name| + 21 && v[..n - 21] == name;
      assert forall i :: 0 <= i < n - 21 ==> v[i] == name[i] && name[i] in name;
    }
  }

  lemma {:induction false} TokenExact(t: string, rest: string)
    requires ' ' !in t
    ensures FirstToken(t) == t && FirstToken(t + " " + rest) == t
  {
    if t != "" {
      assert (t + " " + rest)[1..] == t[1..] + " " + rest;
      TokenExact(t[1..], rest);
    } else {
      assert t + " " + rest == " " + rest;
    }
  }

  lemma {:induction false} TokenSplits(line: string)
    ensures var t := FirstToken(line); ' ' !in t && (line == t || t + " " <= line)
  {
    if line != "" && line[0] != ' ' {
      TokenSplits(line[1..]);
      var t := FirstToken(line[1..]);
      assert line == [line[0]] + line[1..];
      assert t + " " <= line[1..] ==> [line[0]] + t + " " <= line;
    }
  }

  /** The line is an SSH certificate type, alone or followed by a blank and anything. */
  ghost predicate StartsWithCert(line: string) {
    exists t :: IsSSHCertType(t) && ' ' !in t && (line == t || t + " " <= line)
  }

  lemma CertExact(line: string)
    ensures IsSSHCert(line) <==> StartsWithCert(line)
  {
    TokenSplits(line);
    if t :| IsSSHCertType(t) && ' ' !in t && (line == t || t + " " <= line) {
      if line == t {
        TokenExact(t, "");
      } else {
        TokenExact(t, line[|t| + 1..]);
        assert line == t + " " + line[|t| + 1..];
      }
    }
  }

  /** A certificate type begins with a letter, a digit or a dash, and what follows the dashes of
      a type is not a capital. */
  lemma CertHasNoCapital(v: string)
    requires IsSSHCertType(v)
    ensures v[0] != '@' && v[5] != 'B'
  {
    var n := |v|;
    assert KeyTypeChar(v[0]);
    if 5 < n - 21 {
      assert KeyTypeChar(v[5]);
    } else {
      assert v[5] == v[n - 21..n - 14][5 - (n - 21)];
      assert 'B' !in CERT_V;
      assert v[5] in CERT_V;
    }
  }

  lemma TokenKeeps(line: string, p: string)
    requires p <= line && ' ' !in p
    ensures p <= FirstToken(line)
  {
    TokenSplits(line);
    var t := FirstToken(line);
    assert forall k :: 0 <= k < |p| ==> line[k] == p[k] && p[k] in p;
    assert line != t ==> line[|t|] == ' ';
    assert line[..|p|] == p && t == line[..|t|];
  }

  /** The three marks exclude each other, so the order in which the decoder asks does not
      matter. */
  lemma KindExact(line: string)
    ensures KindOf(line) == CertLine <==> StartsWithCert(line)
    ensures KindOf(line) == AuthorityLine <==> "@cert-authority" <= line
    ensures KindOf(line) == BeginLine <==> "-----BEGIN" <= line
    ensures IsEnd(line) <==> "-----END" <= line
  {
    CertExact(line);
    var t := FirstToken(line);
    if IsSSHCert(line) {
      CertHasNoCapital(t);
      if "@cert-authority" <= line {
        TokenKeeps(line, "@cert-authority");
      }
      if "-----BEGIN" <= line {
        TokenKeeps(line, "-----BEGIN");
      }
    }
  }

  // ---------- Whole files ----------

  /** A piece of a file: a line with a certificate or an authority, a block with its lines, or a
      line that means nothing. */
  datatype Piece =
    | Cert(line: string) | Authority(line: string) | Block(body: seq<string>, end: string) | Other(line: string)

  ghost predicate WellFormed(p: Piece) {
    match p
    case Cert(line) => Clean(line) && StartsWithCert(line)
    case Authority(line) => Clean(line) && "@cert-authority" <= line
    case Block(body, end) =>
      && body != [] && "-----BEGIN" <= body[0] && Clean(end) && "-----END" <= end
      && forall k :: 0 <= k < |body| ==> Clean(body[k]) && !("-----END" <= body[k])
    case Other(line) =>
      && Clean(line) && !StartsWithCert(line)
      && !("@cert-authority" <= line) && !("-----BEGIN" <= line)
  }

  function Text(p: Piece): string {
    if p.Block? then Join(p.body) + (p.end + "\n") else p.line + "\n"
  }

  function Texts(ps: seq<Piece>): string {
    if ps == [] then "" else Texts(ps[..|ps| - 1]) + Text(ps[|ps| - 1])
  }

  /** The texts of the pieces of one sort, in order. */
  function Certs(ps: seq<Piece>): seq<string> {
    if ps == [] then []
    else Certs(ps[..|ps| - 1]) + if ps[|ps| - 1].Cert? then [Text(ps[|ps| - 1])] else []
  }

  function Authorities(ps: seq<Piece>): seq<string> {
    if ps == [] then []
    else Authorities(ps[..|ps| - 1]) + if ps[|ps| - 1].Authority? then [Text(ps[|ps| - 1])] else []
  }

  function Blocks(ps: seq<Piece>): seq<string> {
    if ps == [] then []
    else Blocks(ps[..|ps| - 1]) + if ps[|ps| - 1].Block? then [Text(ps[|ps| - 1])] else []
  }

  /** The first block is the private key, the second the TLS certificate and the others TLS
      authorities; the last SSH certificate counts, and every SSH authority. */
  function Assembled(ps: seq<Piece>): Identity {
    Filled(Blocks(ps), if Certs(ps) == [] then "" else Certs(ps)[|Certs(ps)| - 1], Authorities(ps))
  }

  function Filled(blocks: seq<string>, cert: string, authorities: seq<string>): Identity {
    Identity(
      if |blocks| > 0 then blocks[0] else "",
      cert,
      if |blocks| > 1 then blocks[1] else "",
      authorities,
      if |blocks| > 2 then blocks[2..] else [])
  }

  lemma OneMoreBlockFilled(blocks: seq<string>, b: string, cert: string, authorities: seq<string>)
    requires forall k :: 0 <= k < |blocks| ==> blocks[k] != ""
    ensures Place(Filled(blocks, cert, authorities), b) == Filled(blocks + [b], cert, authorities)
  {
    if |blocks| > 2 {
      assert (blocks + [b])[2..] == blocks[2..] + [b];
    }
  }

  lemma BlockIsText(p: Piece)
    requires WellFormed(p) && p.Block?
    ensures BlockText(Text(p)) && OpenBlock(p.body)
  {
    KindExact(p.body[0]);
    KindExact(p.end);
    forall k | 0 <= k < |p.body| ensures !IsEnd(p.body[k]) {
      KindExact(p.body[k]);
    }
  }

  /** The parser after one more piece. */
  function After(i: Identity, p: Piece): Identity {
    match p
    case Cert(_) => i.(sshCert := Text(p))
    case Authority(_) => i.(sshCAs := i.sshCAs + [Text(p)])
    case Block(_, _) => Place(i, Text(p))
    case Other(_) => i
  }

  lemma PieceMoves(i: Identity, p: Piece)
    requires WellFormed(p)
    ensures Moves(Parser(i, ""), Text(p), Parser(After(i, p), ""))
  {
    if p.Block? {
      BlockIsText(p);
      BlockMoves(i, Text(p));
    } else {
      KindExact(p.line);
      LineMoves(Parser(i, ""), p.line);
    }
  }

  lemma {:induction false} BlocksNotEmpty(ps: seq<Piece>)
    ensures forall k :: 0 <= k < |Blocks(ps)| ==> Blocks(ps)[k] != ""
  {
    if ps != [] { BlocksNotEmpty(ps[..|ps| - 1]); }
  }

  lemma OneMorePiece(ps: seq<Piece>)
    requires ps != []
    ensures Assembled(ps) == After(Assembled(ps[..|ps| - 1]), ps[|ps| - 1])
  {
    var init, p := ps[..|ps| - 1], ps[|ps| - 1];
    if p.Block? {
      BlocksNotEmpty(init);
      OneMoreBlockFilled(Blocks(init), Text(p), Assembled(init).sshCert, Authorities(init));
      assert Blocks(ps) == Blocks(init) + [Text(p)];
    }
  }

  lemma {:induction false} PiecesMove(ps: seq<Piece>)
    requires forall k :: 0 <= k < |ps| ==> WellFormed(ps[k])
    ensures Moves(Parser(EMPTY, ""), Texts(ps), Parser(Assembled(ps), ""))
  {
    if ps != [] {
      var init, p := ps[..|ps| - 1], ps[|ps| - 1];
      PiecesMove(init);
      PieceMoves(Assembled(init), p);
      OneMorePiece(ps);
      MovesConcat(Parser(EMPTY, ""), Texts(init), Parser(Assembled(init), ""), Text(p), Parser(Assembled(ps), ""));
    }
  }

  /** Every file made of well-formed pieces decodes to what they are. */
  lemma DecodeFile(ps: seq<Piece>)
    requires forall k :: 0 <= k < |ps| ==> WellFormed(ps[k])
    ensures Decode(Texts(ps)) == Ok(Assembled(ps))
  {
    PiecesMove(ps);
    WholeFile(Texts(ps), Assembled(ps));
  }

  lemma OpenAtEnd(text: string, i: Identity, pem: string)
    requires Moves(Parser(EMPTY, ""), text, Parser(i, pem)) && pem != ""
    ensures Decode(text) == Err(Fragment)
  {}

  /** A block without its last line is an error, whatever precedes it. */
  lemma FragmentFails(ps: seq<Piece>, p: Piece)
    requires (forall k :: 0 <= k < |ps| ==> WellFormed(ps[k])) && WellFormed(p) && p.Block?
    ensures Decode(Texts(ps) + Join(p.body)) == Err(Fragment)
  {
    PiecesMove(ps);
    BlockIsText(p);
    var i := Assembled(ps);
    OpenMoves(i, p.body);
    MovesConcat(Parser(EMPTY, ""), Texts(ps), Parser(i, ""), Join(p.body), Parser(i, Join(p.body)));
    OpenAtEnd(Texts(ps) + Join(p.body), i, Join(p.body));
  }

  lemma {:induction false} LinesOfRest(s: string)
    requires !Terminated(s)
    ensures Lines(s + "\n") == Lines(s)
  {
    assert (s + "\n")[1..] == s[1..] + "\n";
    if |s| == 1 {
      LinesOfLine(s);
      assert s[1..] == "" && Lines(s[1..]) == [];
      assert Lines(s) == [[s[0]]] && s == [s[0]];
    } else {
      LinesOfRest(s[1..]);
      LinesHaveNoNewline(s[1..]);
    }
  }

  /** The newline at the end of a file may be missing. */
  lemma FinalNewlineOptional(s: string)
    requires !Terminated(s)
    ensures Decode(s) == Decode(s + "\n")
  {
    LinesOfRest(s);
  }

  /** A line of 64 KiB or more cannot be scanned. */
  lemma LongLineFails(line: string)
    requires '\n' !in line
    ensures Decode(line + "\n") == Err(TokenTooLong) <==> |line| >= 65536
  {
    LinesOfLine(line);
    if |line| < 65536 {
      assert AllShort([line]);
    } else {
      assert !AllShort([line]) by { assert [line][0] == line; }
    }
  }

  lemma OnePiece(p: Piece)
    requires WellFormed(p)
    ensures Decode(Text(p)) == Ok(After(EMPTY, p))
  {
    PieceMoves(EMPTY, p);
    WholeFile(Text(p), After(EMPTY, p));
  }

  lemma CertWithBlank(t: string, rest: string)
    requires IsSSHCertType(t) && ' ' !in t
    ensures StartsWithCert(t + " " + rest)
  {
    assert t + " " <= t + " " + rest;
  }

  /** A file of one line with an SSH certificate. */
  lemma CertLineDecodes(t: string, rest: string)
    requires IsSSHCertType(t) && ' ' !in t && Clean(t + " " + rest)
    ensures var text := t + " " + rest + "\n"; Decode(text) == Ok(EMPTY.(sshCert := text))
  {
    CertWithBlank(t, rest);
    OnePiece(Cert(t + " " + rest));
  }

  /** The printer ends every component with a newline, adding it exactly where it is missing. */
  lemma NewlineAdded(data: string)
    ensures var w := WithNewline(data);
      && data <= w && |w| <= |data| + 1 && w != "" && Terminated(w)
      && (w == data <==> data != "" && Terminated(data))
  {}
}
