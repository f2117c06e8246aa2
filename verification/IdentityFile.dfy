/**
 The identity file codec of api/identityfile/identityfile.go.

 The file is a list of lines: PEM blocks (the textual encoding of section 2 of RFC 7468, of which
 the code looks only at the line prefixes), an OpenSSH certificate line and any number of
 "@cert-authority" lines.  A PEM block is classified by its position among the blocks.  Texts are
 sequences of Unicode characters; an absent field is the empty text.
 */
module IdentityFile {
  import opened Chars
  import opened Options

  datatype Identity = Identity(
    key: string,
    sshCert: string,
    tlsCert: string,
    sshCAs: seq<string>,
    tlsCAs: seq<string>)

  // ---------- Lines ----------

  /** Unicode white space, as `unicode.IsSpace` has it. */
  predicate IsSpace(c: char) {
    || '\t' <= c <= '\r' || c == ' '
    || c == '\U{0085}' || c == '\U{00A0}' || c == '\U{1680}' || '\U{2000}' <= c <= '\U{200a}'
    || c == '\U{2028}' || c == '\U{2029}' || c == '\U{202f}' || c == '\U{205f}' || c == '\U{3000}'
  }

  function TrimLeft(s: string): string {
    if s != "" && IsSpace(s[0]) then TrimLeft(s[1..]) else s
  }

  function TrimRight(s: string): string {
    if s != "" && IsSpace(s[|s| - 1]) then TrimRight(s[..|s| - 1]) else s
  }

  function Trim(s: string): string { TrimRight(TrimLeft(s)) }

  function DropCR(s: string): string {
    if s != "" && s[|s| - 1] == '\r' then s[..|s| - 1] else s
  }

  /** The text cut at its newlines; a last line without a newline counts unless it is empty. */
  function Cut(s: string): seq<string> {
    if s == "" then [] else Prepend(s[0], Cut(s[1..]))
  }

  /** One more character in front of a text already cut. */
  function Prepend(c: char, rest: seq<string>): seq<string> {
    if c == '\n' then [""] + rest
    else if rest == [] then [[c]]
    else [[c] + rest[0]] + rest[1..]
  }

  // ---------- Kinds of line ----------

  predicate HasPrefix(line: string, p: string) { p <= line }

  predicate IsBegin(line: string) { HasPrefix(line, "-----BEGIN") }

  predicate IsEnd(line: string) { HasPrefix(line, "-----END") }

  predicate IsAuthority(line: string) { HasPrefix(line, "@cert-authority") }

  function FirstField(line: string): string {
    if line == "" || line[0] == ' ' then "" else [line[0]] + FirstField(line[1..])
  }

  predicate IsKeyTypeChar(c: char) { 'a' <= c <= 'z' || '0' <= c <= '9' || c == '-' }

  /** The pattern [a-z0-9-]+-cert-v[0-9][0-9]@openssh.com, whose tail has a fixed length. */
  predicate IsCertType(t: string) {
    && |t| > 21
    && (forall i :: 0 <= i < |t| - 21 ==> IsKeyTypeChar(t[i]))
    && t[|t| - 21..|t| - 14] == "-cert-v"
    && IsDigit(t[|t| - 14]) && IsDigit(t[|t| - 13])
    && t[|t| - 12..] == "@openssh.com"
  }

  predicate IsSshCert(line: string) { IsCertType(FirstField(line)) }

  datatype Kind = SshCert | Authority | Begin | End | Other

  /** A line as the decoder sees it: trimmed, and told apart by how it starts. */
  datatype Line = Line(text: string, kind: Kind)

  function Classify(line: string): Kind {
    if IsSshCert(line) then SshCert
    else if IsAuthority(line) then Authority
    else if IsBegin(line) then Begin
    else if IsEnd(line) then End
    else Other
  }

  /** A certificate type has no capital letter where a PEM boundary has one. */
  lemma CertIsNoBoundary(line: string)
    requires IsSshCert(line)
    ensures |line| > 5 && line[0] != '@' && !(line[..5] == "-----" && (line[5] == 'B' || line[5] == 'E'))
  {
    var f := FirstField(line);
    var n := |f| - 21;
    assert IsKeyTypeChar(f[0]) && (n > 5 ==> IsKeyTypeChar(f[5]));
    assert f[n..n + 7][0] == '-' && f[n..n + 7][1] == 'c';
    FirstFieldAgrees(line, 0);
    FirstFieldAgrees(line, 5);
    if n < 4 { FirstFieldAgrees(line, n + 1); assert line[..5][n + 1] == line[n + 1]; }
  }

  /** The kinds exclude each other, so the order in which the decoder tests them does not matter. */
  lemma KindsExclude(line: string)
    ensures Classify(line).SshCert? <==> IsSshCert(line)
    ensures Classify(line).Authority? <==> IsAuthority(line)
    ensures Classify(line).Begin? <==> IsBegin(line)
    ensures Classify(line).End? <==> IsEnd(line)
  {
    if IsSshCert(line) { CertIsNoBoundary(line); }
    assert IsBegin(line) ==> line[0] == '-' && line[..5] == "-----" && line[5] == 'B';
    assert IsEnd(line) ==> line[0] == '-' && line[..5] == "-----" && line[5] == 'E';
    assert IsAuthority(line) ==> line[0] == '@';
  }

  lemma {:induction false} FirstFieldAgrees(line: string, n: nat)
    requires n < |FirstField(line)|
    ensures n < |line| && FirstField(line)[n] == line[n]
  {
    if n > 0 { FirstFieldAgrees(line[1..], n - 1); }
  }

  function Look(raw: string): Line { Line(Trim(raw), Classify(Trim(raw))) }

  /** The lines a `bufio.Scanner` yields, looked at one by one. */
  function LookAll(cut: seq<string>): seq<Line> {
    seq(|cut|, i requires 0 <= i < |cut| => Look(DropCR(cut[i])))
  }

  function Lines(s: string): seq<Line> { LookAll(Cut(s)) }

  // ---------- The meaning of a list of lines ----------

  function Terminated(line: Line): string { line.text + "\n" }

  /** Lines one under the other, each with its newline. */
  function Join(ls: seq<Line>): string {
    if ls == [] then "" else Join(ls[..|ls| - 1]) + Terminated(ls[|ls| - 1])
  }

  /** What has been found so far, and the PEM block being read, if any. */
  datatype Found = Found(cert: string, cas: seq<string>, blocks: seq<string>, open: bool, partial: string)

  const NOTHING := Found("", [], [], false, "")

  /** One line at a time. */
  function Feed(f: Found, line: Line): Found {
    if f.open then
      var block := f.partial + Terminated(line);
      if line.kind.End? then f.(blocks := f.blocks + [block], open := false, partial := "")
      else f.(partial := block)
    else
      match line.kind
      case SshCert => f.(cert := line.text)
      case Authority => f.(cas := f.cas + [line.text])
      case Begin => f.(open := true, partial := Terminated(line))
      case End => f
      case Other => f
  }

  function FeedAll(f: Found, ls: seq<Line>): Found {
    if ls == [] then f else Feed(FeedAll(f, ls[..|ls| - 1]), ls[|ls| - 1])
  }

  /** The first block is the key, the second the TLS certificate, the rest are TLS authorities. */
  function Place(f: Found): Identity {
    var n := |f.blocks|;
    Identity(if n > 0 then f.blocks[0] else "", f.cert, if n > 1 then f.blocks[1] else "",
             f.cas, if n > 2 then f.blocks[2..] else [])
  }

  function Meaning(ls: seq<Line>): Option<Identity> {
    var f := FeedAll(NOTHING, ls);
    if f.open then None else Some(Place(f))
  }

  lemma FeedSnoc(f: Found, ls: seq<Line>, line: Line)
    ensures FeedAll(f, ls + [line]) == Feed(FeedAll(f, ls), line)
  {
    assert (ls + [line])[..|ls|] == ls;
  }

  lemma {:induction false} FeedConcat(f: Found, a: seq<Line>, b: seq<Line>)
    ensures FeedAll(f, a + b) == FeedAll(FeedAll(f, a), b)
  {
    if b == [] {
      assert a + b == a;
    } else {
      var n := |b| - 1;
      FeedConcat(f, a, b[..n]);
      assert a + b == (a + b[..n]) + [b[n]];
      FeedSnoc(f, a + b[..n], b[n]);
    }
  }

  predicate NoEmptyBlocks(f: Found) {
    forall i :: 0 <= i < |f.blocks| ==> f.blocks[i] != ""
  }

  // ---------- Decoding ----------

  /** From outside a block, with `before` of a block read and then one more line of it. */
  function AfterBlockLine(f: Found, before: string, line: Line): Found {
    var block := before + Terminated(line);
    if line.kind.End? then f.(blocks := f.blocks + [block]) else f.(open := true, partial := block)
  }

  lemma OpensBlock(f: Found, line: Line)
    requires !f.open && line.kind.Begin?
    ensures Feed(f, line) == AfterBlockLine(f, "", line)
  {
    assert "" + Terminated(line) == Terminated(line);
  }

  /** The inner loop: takes lines up to the END of the block that begins at line `start`. */
  method ReadBlock(ls: seq<Line>, start: nat) returns (block: Option<string>, i: nat)
    requires start < |ls| && ls[start].kind.Begin?
    requires var f := FeedAll(NOTHING, ls[..start]); !f.open && f.partial == ""
    ensures start < i <= |ls|
    ensures block.None? ==> FeedAll(NOTHING, ls).open
    ensures var f := FeedAll(NOTHING, ls[..start]);
      block.Some? ==> block.value != "" && FeedAll(NOTHING, ls[..i]) == f.(blocks := f.blocks + [block.value])
  {
    ghost var f := FeedAll(NOTHING, ls[..start]);
    var line := ls[start];
    var pemBlock := "";
    i := start + 1;
    assert ls[..i] == ls[..start] + [line];
    FeedSnoc(NOTHING, ls[..start], line);
    OpensBlock(f, line);
    while true
      invariant start < i <= |ls| && line == ls[i - 1]
      invariant FeedAll(NOTHING, ls[..i]) == AfterBlockLine(f, pemBlock, line)
      decreases |ls| - i
    {
      pemBlock := pemBlock + Terminated(line);
      if line.kind.End? {
        return Some(pemBlock), i;
      }
      if i == |ls| {
        assert ls[..i] == ls;
        return None, i;
      }
      line := ls[i];
      assert ls[..i + 1] == ls[..i] + [line];
      FeedSnoc(NOTHING, ls[..i], line);
      i := i + 1;
    }
  }

  lemma PlaceSnoc(f: Found, b: string)
    requires NoEmptyBlocks(f)
    ensures var id, now := Place(f), Place(f.(blocks := f.blocks + [b]));
      now == (if id.key == "" then id.(key := b)
              else if id.tlsCert == "" then id.(tlsCert := b)
              else id.(tlsCAs := id.tlsCAs + [b]))
  {}

  method Decode(text: string) returns (r: Option<Identity>)
    ensures r == Meaning(Lines(text))
  {
    r := DecodeLines(Lines(text));
  }

  method DecodeLines(ls: seq<Line>) returns (r: Option<Identity>)
    ensures r == Meaning(ls)
  {
    var ident := Identity("", "", "", [], []);
    var i := 0;
    while i < |ls|
      invariant 0 <= i <= |ls|
      invariant var f := FeedAll(NOTHING, ls[..i]);
        !f.open && f.partial == "" && NoEmptyBlocks(f) && ident == Place(f)
    {
      ghost var f := FeedAll(NOTHING, ls[..i]);
      var line := ls[i];
      assert ls[..i + 1] == ls[..i] + [line];
      FeedSnoc(NOTHING, ls[..i], line);
      match line.kind {
        case SshCert =>
          ident := ident.(sshCert := line.text);
          i := i + 1;
        case Authority =>
          ident := ident.(sshCAs := ident.sshCAs + [line.text]);
          i := i + 1;
        case Begin =>
          var pemBlock;
          pemBlock, i := ReadBlock(ls, i);
          if pemBlock.None? {
            return None;
          }
          PlaceSnoc(f, pemBlock.value);
          if ident.key == "" {
            ident := ident.(key := pemBlock.value);
          } else if ident.tlsCert == "" {
            ident := ident.(tlsCert := pemBlock.value);
          } else {
            ident := ident.(tlsCAs := ident.tlsCAs + [pemBlock.value]);
          }
        case _ =>
          i := i + 1;
      }
    }
    assert ls[..i] == ls;
    r := Some(ident);
  }
}
