/** The identity file codec (api/identityfile/identityfile.go:206-323): a printer that writes
    the components one after the other, and a line parser that finds them again. A text is a
    sequence of bytes. */
module IdentityFile {
  import opened Text

  datatype Error = TokenTooLong | Fragment

  datatype Result = Ok(ident: Identity) | Err(error: Error)

  /** An absent component is empty; a decoded component never is. */
  datatype Identity = Identity(
    privateKey: string, sshCert: string, tlsCert: string, sshCAs: seq<string>, tlsCAs: seq<string>)

  const EMPTY := Identity("", "", "", [], [])

  // ---------- Lines ----------

  const MAX_LINE := 65535

  /** The tokens of the scanner: what stands between newlines, and an unterminated rest. */
  function Lines(s: string): seq<string> {
    if s == "" then []
    else
      var rest := Lines(s[1..]);
      if s[0] == '\n' then [""] + rest
      else if rest == [] then [[s[0]]]
      else [[s[0]] + rest[0]] + rest[1..]
  }

  predicate IsSpace(c: char) {
    c == ' ' || c == '\t' || c == '\n' || c == '\r' || c as int == 11 || c as int == 12
  }

  function TrimLeft(s: string): string {
    if s != "" && IsSpace(s[0]) then TrimLeft(s[1..]) else s
  }

  function TrimRight(s: string): string {
    if s != "" && IsSpace(s[|s| - 1]) then TrimRight(s[..|s| - 1]) else s
  }

  /** The carriage return that the scanner drops is white space and goes here as well. */
  function Trim(s: string): string { TrimRight(TrimLeft(s)) }

  // ---------- What a line is ----------

  const CERT_V := "-cert-v"
  const AT_OPENSSH := "@openssh.com"

  predicate KeyTypeChar(c: char) { 'a' <= c <= 'z' || '0' <= c <= '9' || c == '-' }

  /** Matches `^[a-z0-9\-]+-cert-v[0-9]{2}@openssh\.com$`. */
  predicate IsSSHCertType(v: string) {
    var n := |v|;
    && n > 21
    && v[n - 12..] == AT_OPENSSH
    && '0' <= v[n - 13] <= '9' && '0' <= v[n - 14] <= '9'
    && v[n - 21..n - 14] == CERT_V
    && forall i :: 0 <= i < n - 21 ==> KeyTypeChar(v[i])
  }

  function FirstToken(s: string): string {
    if s == "" || s[0] == ' ' then "" else [s[0]] + FirstToken(s[1..])
  }

  predicate IsSSHCert(line: string) { IsSSHCertType(FirstToken(line)) }

  datatype Kind = CertLine | AuthorityLine | BeginLine | OtherLine

  /** The cases of the decoder's switch, in its order. */
  function KindOf(line: string): Kind {
    if IsSSHCert(line) then CertLine
    else if HasPrefix(line, "@cert-authority") then AuthorityLine
    else if HasPrefix(line, "-----BEGIN") then BeginLine
    else OtherLine
  }

  predicate IsEnd(line: string) { HasPrefix(line, "-----END") }

  // ---------- The decoder as a fold over trimmed lines ----------

  /** The first block is the key, the second the certificate, all others authorities. */
  function Place(i: Identity, block: string): Identity {
    if i.privateKey == "" then i.(privateKey := block)
    else if i.tlsCert == "" then i.(tlsCert := block)
    else i.(tlsCAs := i.tlsCAs + [block])
  }

  /** `pem` holds the block being collected, and is empty between blocks. */
  datatype Parser = Parser(ident: Identity, pem: string)

  function Take(p: Parser, line: string): Parser {
    var text := line + "\n";
    if p.pem != "" then
      if IsEnd(line) then Parser(Place(p.ident, p.pem + text), "") else p.(pem := p.pem + text)
    else match KindOf(line)
      case CertLine => p.(ident := p.ident.(sshCert := text))
      case AuthorityLine => p.(ident := p.ident.(sshCAs := p.ident.sshCAs + [text]))
      case BeginLine => p.(pem := text)
      case OtherLine => p
  }

  function Feed(p: Parser, lines: seq<string>): Parser
    decreases |lines|
  {
    if lines == [] then p else Feed(Take(p, Trim(lines[0])), lines[1..])
  }

  predicate ShortUpTo(lines: seq<string>, n: nat)
    requires n <= |lines|
  {
    forall k :: 0 <= k < n ==> |lines[k]| <= MAX_LINE
  }

  predicate AllShort(lines: seq<string>) { ShortUpTo(lines, |lines|) }

  function Decode(text: string): Result {
    var lines := Lines(text);
    if !AllShort(lines) then Err(TokenTooLong)
    else
      var p := Feed(Parser(EMPTY, ""), lines);
      if p.pem != "" then Err(Fragment) else Ok(p.ident)
  }

  // ---------- The encoder ----------

  function WithNewline(data: string): string {
    if data != "" && data[|data| - 1] == '\n' then data else data + "\n"
  }

  function WriteAll(items: seq<string>): string {
    if items == [] then "" else WriteAll(items[..|items| - 1]) + WithNewline(items[|items| - 1])
  }

  function Encode(i: Identity): string {
    WithNewline(i.privateKey) + WithNewline(i.sshCert) + WithNewline(i.tlsCert)
    + WriteAll(i.sshCAs) + WriteAll(i.tlsCAs)
  }

  /** `encodeIdentityFile`, writing to a buffer. */
  method EncodeIdentityFile(i: Identity) returns (w: string)
    ensures w == Encode(i)
  {
    w := WithNewline(i.privateKey);
    w := w + WithNewline(i.sshCert);
    w := w + WithNewline(i.tlsCert);
    w := WriteList(w, i.sshCAs);
    w := WriteList(w, i.tlsCAs);
  }

  method WriteList(w0: string, items: seq<string>) returns (w: string)
    ensures w == w0 + WriteAll(items)
  {
    w := w0;
    for k := 0 to |items|
      invariant w == w0 + WriteAll(items[..k])
    {
      assert items[..k + 1][..k] == items[..k];
      w := w + WithNewline(items[k]);
    }
    assert items[..|items|] == items;
  }

  lemma BeginIsNotEnd(line: string)
    requires HasPrefix(line, "-----BEGIN")
    ensures !IsEnd(line)
  {
    assert line[..10][5] == line[5] && line[..8][5] == line[5];
    assert "-----BEGIN"[5] == 'B' && "-----END"[5] == 'E';
  }

  datatype Block = Complete(pem: string, next: nat) | Failed(error: Error)

  /** The inner loop: collect the lines of a block whose first line has just been read. */
  method CollectBlock(lines: seq<string>, first: string, start: nat, ghost ident: Identity) returns (b: Block)
    requires KindOf(first) == BeginLine && start <= |lines| && ShortUpTo(lines, start)
    ensures b.Complete? ==>
      && start <= b.next <= |lines| && ShortUpTo(lines, b.next)
      && Feed(Parser(ident, first + "\n"), lines[start..]) == Feed(Parser(Place(ident, b.pem), ""), lines[b.next..])
    ensures b.Failed? ==>
      if AllShort(lines) then b.error == Fragment && Feed(Parser(ident, first + "\n"), lines[start..]).pem != ""
      else b.error == TokenTooLong
  {
    BeginIsNotEnd(first);
    var pem, line, k := first + "\n", first, start;
    while true
      invariant start <= k <= |lines| && ShortUpTo(lines, k) && pem != ""
      invariant Feed(Parser(ident, first + "\n"), lines[start..]) == Feed(Parser(ident, pem), lines[k..])
      decreases |lines| - k
    {
      if k == |lines| {
        return Failed(Fragment);
      }
      if |lines[k]| > MAX_LINE {
        return Failed(TokenTooLong);
      }
      line := Trim(lines[k]);
      assert lines[k..][1..] == lines[k + 1..];
      k := k + 1;
      if IsEnd(line) {
        return Complete(pem + (line + "\n"), k);
      }
      pem := pem + (line + "\n");
    }
  }

  /** `decodeIdentityFile`: two nested loops over one scanner, the inner one collecting a
      block. They compute the fold. */
  method DecodeIdentityFile(text: string) returns (r: Result)
    ensures r == Decode(text)
  {
    var lines := Lines(text);
    var ident, k := EMPTY, 0;
    while k < |lines|
      invariant 0 <= k <= |lines| && ShortUpTo(lines, k)
      invariant Feed(Parser(ident, ""), lines[k..]) == Feed(Parser(EMPTY, ""), lines)
    {
      if |lines[k]| > MAX_LINE {
        return Err(TokenTooLong);
      }
      var line := Trim(lines[k]);
      assert lines[k..][1..] == lines[k + 1..];
      k := k + 1;
      match KindOf(line)
      case CertLine => ident := ident.(sshCert := line + "\n");
      case AuthorityLine => ident := ident.(sshCAs := ident.sshCAs + [line + "\n"]);
      case OtherLine =>
      case BeginLine =>
        var b := CollectBlock(lines, line, k, ident);
        if b.Failed? {
          return Err(b.error);
        }
        ident, k := Place(ident, b.pem), b.next;
    }
    return Ok(ident);
  }
}
