/**
 Encoding an identity file, and what survives encoding and decoding.
 */
module IdentityRoundTrip {
  import opened Options
  import opened IdentityFile
  import opened IdentityMeaning
  import opened IdentityText

  // ---------- Encoding ----------

  function WithNewline(data: string): string {
    if EndsLine(data) then data else data + "\n"
  }

  function WriteAll(parts: seq<string>): string {
    if parts == [] then "" else WriteAll(parts[..|parts| - 1]) + WithNewline(parts[|parts| - 1])
  }

  /** The components in file order; absent ones leave an empty line. */
  function Parts(id: Identity): seq<string> {
    [id.key, id.sshCert, id.tlsCert] + id.sshCAs + id.tlsCAs
  }

  lemma WriteSnoc(parts: seq<string>, x: string)
    ensures WriteAll(parts + [x]) == WriteAll(parts) + WithNewline(x)
  {
    assert (parts + [x])[..|parts|] == parts;
  }

  lemma WriteHead(a: string, b: string, c: string)
    ensures WriteAll([a, b, c]) == WithNewline(a) + WithNewline(b) + WithNewline(c)
  {
    WriteSnoc([], a);
    WriteSnoc([a], b);
    WriteSnoc([a, b], c);
    assert [] + [a] == [a] && [a] + [b] == [a, b] && [a, b] + [c] == [a, b, c];
    assert WriteAll([]) + WithNewline(a) == WithNewline(a);
  }

  lemma WriteNext(before: seq<string>, parts: seq<string>, i: nat)
    requires i < |parts|
    ensures WriteAll(before + parts[..i + 1]) == WriteAll(before + parts[..i]) + WithNewline(parts[i])
  {
    assert before + parts[..i + 1] == before + parts[..i] + [parts[i]];
    WriteSnoc(before + parts[..i], parts[i]);
  }

  method WriteEach(buf0: string, ghost before: seq<string>, parts: seq<string>) returns (buf: string)
    requires buf0 == WriteAll(before)
    ensures buf == WriteAll(before + parts)
  {
    buf := buf0;
    assert before + parts[..0] == before;
    for i := 0 to |parts|
      invariant buf == WriteAll(before + parts[..i])
    {
      WriteNext(before, parts, i);
      buf := buf + WithNewline(parts[i]);
    }
    assert parts[..|parts|] == parts;
  }

  /** `encodeIdentityFile`: every component in its place, each ending its line. */
  method Encode(id: Identity) returns (buf: string)
    ensures buf == WriteAll(Parts(id))
  {
    ghost var head := [id.key, id.sshCert, id.tlsCert];
    buf := WithNewline(id.key);
    buf := buf + WithNewline(id.sshCert);
    buf := buf + WithNewline(id.tlsCert);
    WriteHead(id.key, id.sshCert, id.tlsCert);
    buf := WriteEach(buf, head, id.sshCAs);
    buf := WriteEach(buf, head + id.sshCAs, id.tlsCAs);
  }

  // ---------- Lines of a text ----------

  predicate Clean(l: string) {
    '\n' !in l && (l == "" || (!IsSpace(l[0]) && !IsSpace(l[|l| - 1])))
  }

  lemma {:induction false} TrimRightClean(s: string)
    requires '\n' !in s && (s == "" || !IsSpace(s[0]))
    ensures Clean(TrimRight(s))
  {
    if s != "" && IsSpace(s[|s| - 1]) { TrimRightClean(s[..|s| - 1]); }
  }

  lemma {:induction false} TrimClean(s: string)
    requires '\n' !in s
    ensures Clean(Trim(s))
  {
    if s != "" && IsSpace(s[0]) {
      TrimClean(s[1..]);
    } else {
      TrimRightClean(s);
    }
  }

  predicate CleanLine(x: Line) { Clean(x.text) && x.kind == Classify(x.text) }

  predicate CleanLines(ls: seq<Line>) { forall i :: 0 <= i < |ls| ==> CleanLine(ls[i]) }

  lemma LinesAreClean(s: string)
    ensures CleanLines(Lines(s))
  {
    CutHasNoNewline(s);
    forall i | 0 <= i < |Lines(s)| ensures CleanLine(Lines(s)[i]) {
      TrimClean(DropCR(Cut(s)[i]));
    }
  }

  /** A text whose last line is terminated can be read on its own. */
  lemma {:induction false} CutConcat(a: string, b: string)
    requires EndsLine(a)
    ensures Cut(a + b) == Cut(a) + Cut(b) && Cut(a) != []
  {
    assert (a + b)[1..] == a[1..] + b && (a + b)[0] == a[0];
    if |a| == 1 {
      assert a[1..] == "" && a[1..] + b == b;
    } else {
      CutConcat(a[1..], b);
    }
    PrependConcat(a[0], Cut(a[1..]), Cut(b));
  }

  lemma PrependConcat(c: char, p: seq<string>, q: seq<string>)
    requires c == '\n' || p != []
    ensures Prepend(c, p + q) == Prepend(c, p) + q && Prepend(c, p) != []
  {
    if c == '\n' {
      assert [""] + (p + q) == [""] + p + q;
    } else {
      assert (p + q)[0] == p[0] && (p + q)[1..] == p[1..] + q;
    }
  }

  lemma LookConcat(p: seq<string>, q: seq<string>)
    ensures LookAll(p + q) == LookAll(p) + LookAll(q)
  {
  }

  lemma LinesConcat(a: string, b: string)
    requires a == "" || EndsLine(a)
    ensures Lines(a + b) == Lines(a) + Lines(b)
  {
    if a == "" {
      assert a + b == b;
    } else {
      CutConcat(a, b);
      LookConcat(Cut(a), Cut(b));
    }
  }

  lemma {:induction false} CutOne(l: string)
    requires '\n' !in l
    ensures Cut(l + "\n") == [l]
  {
    var s := l + "\n";
    if l == "" {
      assert s[1..] == "";
    } else {
      assert s[1..] == l[1..] + "\n";
      CutOne(l[1..]);
      assert [l[0]] + l[1..] == l;
    }
  }

  lemma OneLine(x: Line)
    requires CleanLine(x)
    ensures Lines(Terminated(x)) == [x]
  {
    CutOne(x.text);
    assert DropCR(x.text) == x.text;
    assert Trim(x.text) == x.text;
  }

  lemma JoinEndsLine(ls: seq<Line>)
    ensures if ls == [] then Join(ls) == "" else EndsLine(Join(ls))
  {}

  lemma LinesSnoc(a: string, ls: seq<Line>, x: Line, s: string)
    requires (a == "" || EndsLine(a)) && Lines(a) == ls && CleanLine(x) && s == a + Terminated(x)
    ensures Lines(s) == ls + [x]
  {
    LinesConcat(a, Terminated(x));
    OneLine(x);
  }

  lemma {:induction false} LinesOfJoin(ls: seq<Line>)
    requires CleanLines(ls)
    ensures Lines(Join(ls)) == ls
  {
    if ls != [] {
      var front, x := ls[..|ls| - 1], ls[|ls| - 1];
      LinesOfJoin(front);
      JoinEndsLine(front);
      LinesSnoc(Join(front), front, x, Join(ls));
    }
  }

  // ---------- The text that is written ----------

  /** The lines of a component before trimming; an absent one leaves an empty line. */
  function RawLines(part: string): seq<string> { if part == "" then [""] else Cut(part) }

  function AllRawLines(parts: seq<string>): seq<string> {
    if parts == [] then [] else AllRawLines(parts[..|parts| - 1]) + RawLines(parts[|parts| - 1])
  }

  lemma RawLinesOf(part: string)
    ensures Cut(WithNewline(part)) == RawLines(part) && EndsLine(WithNewline(part))
  {
    if part == "" {
      CutOne("");
      assert "" + "\n" == "\n";
    } else if !EndsLine(part) {
      LastLineCounts(part);
    }
  }

  /** The file is the lines of its components as they are: none is added, dropped or changed. */
  lemma {:induction false} EncodedText(parts: seq<string>)
    ensures Cut(WriteAll(parts)) == AllRawLines(parts)
    ensures WriteAll(parts) == Unlines(AllRawLines(parts))
  {
    if parts != [] {
      var front, last := parts[..|parts| - 1], parts[|parts| - 1];
      EncodedText(front);
      RawLinesOf(last);
      if front != [] {
        WriteEndsLine(front);
        CutConcat(WriteAll(front), WithNewline(last));
      } else {
        assert WriteAll(front) + WithNewline(last) == WithNewline(last);
      }
      WriteEndsLine(parts);
    }
    CutIsUndone(WriteAll(parts));
  }

  // ---------- Feeding components ----------

  predicate IsBlock(ls: seq<Line>) {
    && |ls| >= 2 && ls[0].kind.Begin? && ls[|ls| - 1].kind.End?
    && forall j :: 0 <= j < |ls| - 1 ==> !ls[j].kind.End?
  }

  predicate IsOne(ls: seq<Line>, kind: Kind) { |ls| == 1 && ls[0].kind == kind }

  predicate Outside(f: Found) { !f.open && f.partial == "" }

  lemma {:induction false} FeedBlockPart(f: Found, ls: seq<Line>, n: nat)
    requires Outside(f) && IsBlock(ls) && 1 <= n < |ls|
    ensures FeedAll(f, ls[..n]) == f.(open := true, partial := Join(ls[..n]))
  {
    OneLineMore(f, ls, n - 1);
    if n > 1 { FeedBlockPart(f, ls, n - 1); }
  }

  lemma OneLineMore(f: Found, ls: seq<Line>, n: nat)
    requires n < |ls|
    ensures FeedAll(f, ls[..n + 1]) == Feed(FeedAll(f, ls[..n]), ls[n])
    ensures Join(ls[..n + 1]) == Join(ls[..n]) + Terminated(ls[n])
    ensures n == 0 ==> Join(ls[..n + 1]) == Terminated(ls[n])
  {
    assert ls[..n + 1] == ls[..n] + [ls[n]];
    FeedSnoc(f, ls[..n], ls[n]);
    JoinSnoc(ls[..n], ls[n]);
  }

  lemma FeedBlock(f: Found, ls: seq<Line>)
    requires Outside(f) && IsBlock(ls)
    ensures FeedAll(f, ls) == f.(blocks := f.blocks + [Join(ls)])
  {
    var n := |ls| - 1;
    FeedBlockPart(f, ls, n);
    assert ls == ls[..n] + [ls[n]];
    FeedSnoc(f, ls[..n], ls[n]);
    JoinSnoc(ls[..n], ls[n]);
  }

  lemma FeedOne(f: Found, ls: seq<Line>)
    requires |ls| == 1
    ensures FeedAll(f, ls) == Feed(f, ls[0])
  {
    assert ls == [] + [ls[0]];
    FeedSnoc(f, [], ls[0]);
  }

  function OptBlock(ls: seq<Line>): seq<string> { if IsBlock(ls) then [Join(ls)] else [] }

  lemma FeedPem(f: Found, ls: seq<Line>)
    requires Outside(f) && (IsBlock(ls) || IsOne(ls, Other))
    ensures FeedAll(f, ls) == f.(blocks := f.blocks + OptBlock(ls))
  {
    if IsBlock(ls) {
      FeedBlock(f, ls);
    } else {
      FeedOne(f, ls);
      assert f.blocks + [] == f.blocks;
    }
  }

  function Flat(fs: seq<seq<Line>>): seq<Line> {
    if fs == [] then [] else Flat(fs[..|fs| - 1]) + fs[|fs| - 1]
  }

  function JoinEach(fs: seq<seq<Line>>): seq<string> {
    seq(|fs|, i requires 0 <= i < |fs| => Join(fs[i]))
  }

  function FirstEach(fs: seq<seq<Line>>): seq<string> {
    seq(|fs|, i requires 0 <= i < |fs| => if fs[i] == [] then "" else fs[i][0].text)
  }

  lemma {:induction false} FeedAuthorities(f: Found, fs: seq<seq<Line>>)
    requires Outside(f) && forall i :: 0 <= i < |fs| ==> IsOne(fs[i], Authority)
    ensures FeedAll(f, Flat(fs)) == f.(cas := f.cas + FirstEach(fs))
  {
    if fs == [] {
      assert f.cas + FirstEach(fs) == f.cas;
    } else {
      var n := |fs| - 1;
      FeedAuthorities(f, fs[..n]);
      FeedConcat(f, Flat(fs[..n]), fs[n]);
      FeedOne(FeedAll(f, Flat(fs[..n])), fs[n]);
      assert FirstEach(fs) == FirstEach(fs[..n]) + [fs[n][0].text];
    }
  }

  lemma {:induction false} FeedBlocks(f: Found, fs: seq<seq<Line>>)
    requires Outside(f) && forall i :: 0 <= i < |fs| ==> IsBlock(fs[i])
    ensures FeedAll(f, Flat(fs)) == f.(blocks := f.blocks + JoinEach(fs))
  {
    if fs == [] {
      assert f.blocks + JoinEach(fs) == f.blocks;
    } else {
      var n := |fs| - 1;
      FeedBlocks(f, fs[..n]);
      FeedConcat(f, Flat(fs[..n]), fs[n]);
      FeedBlock(FeedAll(f, Flat(fs[..n])), fs[n]);
      assert JoinEach(fs) == JoinEach(fs[..n]) + [Join(fs[n])];
    }
  }

  /** Key, SSH certificate and TLS certificate, present or not, each read from outside a block. */
  lemma FeedHead(key: seq<Line>, cert: seq<Line>, tls: seq<Line>)
    requires IsBlock(key) || IsOne(key, Other)
    requires IsOne(cert, SshCert) || cert == [Line("", Other)]
    requires IsBlock(tls) || IsOne(tls, Other)
    ensures FeedAll(NOTHING, key + cert + tls)
         == NOTHING.(cert := cert[0].text, blocks := OptBlock(key) + OptBlock(tls))
  {
    FeedPem(NOTHING, key);
    var f := FeedAll(NOTHING, key);
    assert f.blocks == OptBlock(key);
    FeedConcat(NOTHING, key, cert);
    FeedOne(f, cert);
    FeedConcat(NOTHING, key + cert, tls);
    FeedPem(FeedAll(NOTHING, key + cert), tls);
  }

  lemma FeedFile(key: seq<Line>, cert: seq<Line>, tls: seq<Line>, cas: seq<seq<Line>>, tlsCas: seq<seq<Line>>)
    requires IsBlock(key) || IsOne(key, Other)
    requires IsOne(cert, SshCert) || cert == [Line("", Other)]
    requires IsBlock(tls) || IsOne(tls, Other)
    requires forall i :: 0 <= i < |cas| ==> IsOne(cas[i], Authority)
    requires forall i :: 0 <= i < |tlsCas| ==> IsBlock(tlsCas[i])
    ensures FeedAll(NOTHING, key + cert + tls + Flat(cas) + Flat(tlsCas))
         == Found(cert[0].text, FirstEach(cas), OptBlock(key) + OptBlock(tls) + JoinEach(tlsCas), false, "")
  {
    var head := key + cert + tls;
    FeedHead(key, cert, tls);
    FeedConcat(NOTHING, head, Flat(cas));
    FeedAuthorities(FeedAll(NOTHING, head), cas);
    assert [] + FirstEach(cas) == FirstEach(cas);
    FeedConcat(NOTHING, head + Flat(cas), Flat(tlsCas));
    FeedBlocks(FeedAll(NOTHING, head + Flat(cas)), tlsCas);
  }

  // ---------- Well-formed identities ----------

  /** The lines a component takes up in the file. */
  function Field(t: string): seq<Line> { Lines(WithNewline(t)) }

  function Fields(ts: seq<string>): seq<seq<Line>> {
    seq(|ts|, i requires 0 <= i < |ts| => Field(ts[i]))
  }

  /** Every component that is present is what its field is for; nothing is asked of its layout. */
  predicate WellFormed(id: Identity) {
    && (id.key == "" || IsBlock(Field(id.key)))
    && (id.sshCert == "" || IsOne(Field(id.sshCert), SshCert))
    && (id.tlsCert == "" || IsBlock(Field(id.tlsCert)))
    && (forall i :: 0 <= i < |id.sshCAs| ==> IsOne(Field(id.sshCAs[i]), Authority))
    && (forall i :: 0 <= i < |id.tlsCAs| ==> IsBlock(Field(id.tlsCAs[i])))
  }

  /** No TLS certificate without a key, no TLS authority without a TLS certificate. */
  predicate Positioned(id: Identity) {
    (id.key == "" ==> id.tlsCert == "") && (id.tlsCert == "" ==> id.tlsCAs == [])
  }

  /** The identity with its lines trimmed and its newlines regular. */
  function Norm(id: Identity): Identity {
    Identity(
      if id.key == "" then "" else Join(Field(id.key)),
      if id.sshCert == "" || Field(id.sshCert) == [] then "" else Field(id.sshCert)[0].text,
      if id.tlsCert == "" then "" else Join(Field(id.tlsCert)),
      FirstEach(Fields(id.sshCAs)),
      JoinEach(Fields(id.tlsCAs)))
  }

  lemma EmptyField()
    ensures Field("") == [Line("", Other)]
  {
    var x := Line("", Other);
    assert CleanLine(x) by { assert FirstField("") == ""; }
    OneLine(x);
    assert WithNewline("") == Terminated(x);
  }

  lemma WriteEndsLine(parts: seq<string>)
    ensures parts == [] || EndsLine(WriteAll(parts))
  {}

  lemma {:induction false} LinesOfParts(parts: seq<string>)
    ensures Lines(WriteAll(parts)) == Flat(Fields(parts))
  {
    if parts != [] {
      var n := |parts| - 1;
      LinesOfParts(parts[..n]);
      WriteEndsLine(parts[..n]);
      LinesConcat(WriteAll(parts[..n]), WithNewline(parts[n]));
      FlatFieldsLast(parts, n);
    }
  }

  lemma FlatFieldsLast(parts: seq<string>, n: nat)
    requires |parts| == n + 1
    ensures Flat(Fields(parts)) == Flat(Fields(parts[..n])) + Field(parts[n])
  {
    assert Fields(parts) == Fields(parts[..n]) + [Field(parts[n])];
    FlatSnoc(Fields(parts[..n]), Field(parts[n]));
  }

  lemma {:induction false} FlatConcat(a: seq<seq<Line>>, b: seq<seq<Line>>)
    ensures Flat(a + b) == Flat(a) + Flat(b)
  {
    if b == [] {
      assert a + b == a;
    } else {
      var n := |b| - 1;
      assert (a + b)[..|a + b| - 1] == a + b[..n];
      FlatConcat(a, b[..n]);
    }
  }

  lemma FlatSnoc(fs: seq<seq<Line>>, x: seq<Line>)
    ensures Flat(fs + [x]) == Flat(fs) + x
  {
    assert (fs + [x])[..|fs|] == fs;
  }

  lemma FlatThree(a: seq<Line>, b: seq<Line>, c: seq<Line>)
    ensures Flat([a, b, c]) == a + b + c
  {
    FlatSnoc([], a);
    FlatSnoc([a], b);
    FlatSnoc([a, b], c);
    assert [] + [a] == [a] && [a] + [b] == [a, b] && [a, b] + [c] == [a, b, c];
    assert Flat([]) + a == a;
  }

  lemma FlatFile(head: seq<seq<Line>>, b: seq<seq<Line>>, c: seq<seq<Line>>)
    requires |head| == 3
    ensures Flat(head + b + c) == head[0] + head[1] + head[2] + Flat(b) + Flat(c)
  {
    FlatConcat(head + b, c);
    FlatConcat(head, b);
    assert head == [head[0], head[1], head[2]];
    FlatThree(head[0], head[1], head[2]);
  }

  lemma FieldsConcat(a: seq<string>, b: seq<string>)
    ensures Fields(a + b) == Fields(a) + Fields(b)
  {}

  lemma LinesOfEncoding(id: Identity)
    ensures Lines(WriteAll(Parts(id)))
         == Field(id.key) + Field(id.sshCert) + Field(id.tlsCert) + Flat(Fields(id.sshCAs)) + Flat(Fields(id.tlsCAs))
  {
    var head := [id.key, id.sshCert, id.tlsCert];
    LinesOfParts(Parts(id));
    FieldsConcat(head + id.sshCAs, id.tlsCAs);
    FieldsConcat(head, id.sshCAs);
    FlatFile(Fields(head), Fields(id.sshCAs), Fields(id.tlsCAs));
  }

  // ---------- Decoding what was encoded ----------

  function Present(t: string): seq<string> { if t == "" then [] else [t] }

  /** Blocks come back in their places exactly if no earlier place was left empty. */
  lemma PlaceIff(cert: string, cas: seq<string>, key: string, tls: string, tlsCas: seq<string>)
    requires forall i :: 0 <= i < |tlsCas| ==> tlsCas[i] != ""
    ensures Place(Found(cert, cas, Present(key) + Present(tls) + tlsCas, false, ""))
              == Identity(key, cert, tls, cas, tlsCas)
        <==> Positioned(Identity(key, cert, tls, cas, tlsCas))
  {
    var blocks := Present(key) + Present(tls) + tlsCas;
    if key != "" && tls != "" {
      assert blocks[2..] == tlsCas;
    } else if tlsCas != [] {
      assert tlsCas[0] in blocks;
    }
  }

  lemma BlockTextNotEmpty(ls: seq<Line>)
    requires ls != []
    ensures Join(ls) != ""
  {}

  lemma OptBlockIsPresent(t: string)
    requires t == "" || IsBlock(Field(t))
    ensures var n := if t == "" then "" else Join(Field(t));
      OptBlock(Field(t)) == Present(n) && (n == "" <==> t == "")
    ensures t == "" ==> IsOne(Field(t), Other)
  {
    if t == "" { EmptyField(); } else { BlockTextNotEmpty(Field(t)); }
  }

  lemma CertField(id: Identity)
    requires WellFormed(id)
    ensures var cert := Field(id.sshCert);
      && (IsOne(cert, SshCert) || cert == [Line("", Other)])
      && cert[0].text == Norm(id).sshCert
  {
    EmptyField();
  }

  lemma NormKeepsPositions(id: Identity)
    requires WellFormed(id)
    ensures Positioned(Norm(id)) <==> Positioned(id)
    ensures forall i :: 0 <= i < |Norm(id).tlsCAs| ==> Norm(id).tlsCAs[i] != ""
  {
    OptBlockIsPresent(id.key);
    OptBlockIsPresent(id.tlsCert);
    assert |Norm(id).tlsCAs| == |id.tlsCAs|;
    forall i | 0 <= i < |id.tlsCAs| ensures Norm(id).tlsCAs[i] != "" {
      BlockTextNotEmpty(Field(id.tlsCAs[i]));
    }
  }

  lemma ReadEncoded(id: Identity)
    requires WellFormed(id)
    ensures var n := Norm(id);
      FeedAll(NOTHING, Lines(WriteAll(Parts(id))))
        == Found(n.sshCert, n.sshCAs, Present(n.key) + Present(n.tlsCert) + n.tlsCAs, false, "")
  {
    LinesOfEncoding(id);
    WellFormedFields(id, Norm(id), Field(id.key), Field(id.sshCert), Field(id.tlsCert),
                     Fields(id.sshCAs), Fields(id.tlsCAs));
    ReadFields(Norm(id), Field(id.key), Field(id.sshCert), Field(id.tlsCert), Fields(id.sshCAs), Fields(id.tlsCAs));
  }

  /** The lines of each component are of their kind, and hold what n says. */
  predicate FieldsHold(n: Identity, key: seq<Line>, cert: seq<Line>, tls: seq<Line>,
                       cas: seq<seq<Line>>, tlsCas: seq<seq<Line>>)
  {
    && (IsBlock(key) || IsOne(key, Other))
    && (IsOne(cert, SshCert) || cert == [Line("", Other)])
    && (IsBlock(tls) || IsOne(tls, Other))
    && (forall i :: 0 <= i < |cas| ==> IsOne(cas[i], Authority))
    && (forall i :: 0 <= i < |tlsCas| ==> IsBlock(tlsCas[i]))
    && OptBlock(key) == Present(n.key) && OptBlock(tls) == Present(n.tlsCert) && cert[0].text == n.sshCert
    && FirstEach(cas) == n.sshCAs && JoinEach(tlsCas) == n.tlsCAs
  }

  lemma WellFormedFields(id: Identity, n: Identity, key: seq<Line>, cert: seq<Line>, tls: seq<Line>,
                         cas: seq<seq<Line>>, tlsCas: seq<seq<Line>>)
    requires WellFormed(id) && n == Norm(id)
    requires key == Field(id.key) && cert == Field(id.sshCert) && tls == Field(id.tlsCert)
    requires cas == Fields(id.sshCAs) && tlsCas == Fields(id.tlsCAs)
    ensures FieldsHold(n, key, cert, tls, cas, tlsCas)
  {
    CertField(id);
    OptBlockIsPresent(id.key);
    OptBlockIsPresent(id.tlsCert);
  }

  lemma ReadFields(n: Identity, key: seq<Line>, cert: seq<Line>, tls: seq<Line>,
                   cas: seq<seq<Line>>, tlsCas: seq<seq<Line>>)
    requires FieldsHold(n, key, cert, tls, cas, tlsCas)
    ensures FeedAll(NOTHING, key + cert + tls + Flat(cas) + Flat(tlsCas))
         == Found(n.sshCert, n.sshCAs, Present(n.key) + Present(n.tlsCert) + n.tlsCAs, false, "")
  {
    FeedFile(key, cert, tls, cas, tlsCas);
  }

  /**
   Decoding an encoded well-formed identity always succeeds; it gives the identity back, lines
   trimmed and newlines regular, if and only if no TLS part stands without the one before it.
   */
  lemma RoundTripIff(id: Identity)
    requires WellFormed(id)
    ensures Meaning(Lines(WriteAll(Parts(id)))).Some?
    ensures Meaning(Lines(WriteAll(Parts(id)))) == Some(Norm(id)) <==> Positioned(id)
  {
    var n := Norm(id);
    ReadEncoded(id);
    NormKeepsPositions(id);
    PlaceIff(n.sshCert, n.sshCAs, n.key, n.tlsCert, n.tlsCAs);
  }

  // ---------- What the decoder returns ----------

  /** A text that is one trimmed line of the given kind. */
  predicate IsLineText(t: string, kind: Kind) { Clean(t) && Classify(t) == kind }

  ghost predicate IsBlockText(t: string) {
    exists ls :: IsBlockOf(ls, t)
  }

  predicate IsBlockOf(ls: seq<Line>, t: string) { CleanLines(ls) && IsBlock(ls) && t == Join(ls) }

  predicate IsOpenOf(ls: seq<Line>, t: string) {
    && CleanLines(ls) && ls != [] && ls[0].kind.Begin? && t == Join(ls)
    && forall j :: 0 <= j < |ls| ==> !ls[j].kind.End?
  }

  /** All that the decoder has collected is in normal form. */
  ghost predicate Normal(f: Found) {
    && (f.cert == "" || IsLineText(f.cert, SshCert))
    && (forall i :: 0 <= i < |f.cas| ==> IsLineText(f.cas[i], Authority))
    && (forall i :: 0 <= i < |f.blocks| ==> IsBlockText(f.blocks[i]))
    && (f.open ==> exists ls :: IsOpenOf(ls, f.partial))
  }

  lemma NormalFeed(f: Found, x: Line)
    requires Normal(f) && CleanLine(x)
    ensures Normal(Feed(f, x))
  {
    if f.open {
      NormalInside(f, x);
    } else if x.kind.Begin? {
      OpenStarts(x);
    }
  }

  lemma NormalInside(f: Found, x: Line)
    requires Normal(f) && CleanLine(x) && f.open
    ensures Normal(Feed(f, x))
  {
    var ls :| IsOpenOf(ls, f.partial);
    OpenGrows(ls, f.partial, x);
    assert x.kind.End? ==> IsBlockText(f.partial + Terminated(x));
  }

  lemma OpenGrows(ls: seq<Line>, t: string, x: Line)
    requires IsOpenOf(ls, t) && CleanLine(x)
    ensures if x.kind.End? then IsBlockOf(ls + [x], t + Terminated(x)) else IsOpenOf(ls + [x], t + Terminated(x))
  {
    JoinSnoc(ls, x);
  }

  lemma OpenStarts(x: Line)
    requires CleanLine(x) && x.kind.Begin?
    ensures IsOpenOf([x], Terminated(x))
  {
    JoinSnoc([], x);
    assert [] + [x] == [x];
    assert Join([]) + Terminated(x) == Terminated(x);
  }

  lemma {:induction false} NormalFeedAll(ls: seq<Line>)
    requires CleanLines(ls)
    ensures Normal(FeedAll(NOTHING, ls))
  {
    if ls != [] {
      NormalFeedAll(ls[..|ls| - 1]);
      NormalFeed(FeedAll(NOTHING, ls[..|ls| - 1]), ls[|ls| - 1]);
    }
  }

  lemma FieldOfLine(t: string, kind: Kind)
    requires IsLineText(t, kind) && t != ""
    ensures Field(t) == [Line(t, kind)]
  {
    assert !EndsLine(t);
    OneLine(Line(t, kind));
  }

  lemma FieldOfBlock(t: string)
    requires IsBlockText(t)
    ensures IsBlock(Field(t)) && Join(Field(t)) == t && t != ""
  {
    var ls :| IsBlockOf(ls, t);
    LinesOfJoin(ls);
  }

  lemma KindNotEmpty(t: string)
    ensures Classify(t) != Other ==> t != ""
  {
    assert FirstField("") == "";
  }

  lemma FieldsOfLines(ts: seq<string>)
    requires forall i :: 0 <= i < |ts| ==> IsLineText(ts[i], Authority)
    ensures forall i :: 0 <= i < |ts| ==> IsOne(Field(ts[i]), Authority)
    ensures FirstEach(Fields(ts)) == ts
  {
    forall i | 0 <= i < |ts| ensures Field(ts[i]) == [Line(ts[i], Authority)] {
      KindNotEmpty(ts[i]);
      FieldOfLine(ts[i], Authority);
    }
  }

  lemma FieldsOfBlocks(ts: seq<string>)
    requires forall i :: 0 <= i < |ts| ==> IsBlockText(ts[i])
    ensures forall i :: 0 <= i < |ts| ==> IsBlock(Field(ts[i]))
    ensures JoinEach(Fields(ts)) == ts
  {
    forall i | 0 <= i < |ts| ensures IsBlock(Field(ts[i])) && Join(Field(ts[i])) == ts[i] {
      FieldOfBlock(ts[i]);
    }
  }

  lemma BlockOrNothing(t: string)
    requires t == "" || IsBlockText(t)
    ensures t == "" || (IsBlock(Field(t)) && Join(Field(t)) == t)
  {
    if t != "" { FieldOfBlock(t); }
  }

  lemma LineOrNothing(t: string)
    requires t == "" || IsLineText(t, SshCert)
    ensures t == "" || (IsOne(Field(t), SshCert) && Field(t)[0].text == t)
  {
    if t != "" { FieldOfLine(t, SshCert); }
  }

  ghost predicate NormalTexts(id: Identity) {
    && (id.key == "" || IsBlockText(id.key))
    && (id.tlsCert == "" || IsBlockText(id.tlsCert))
    && (id.sshCert == "" || IsLineText(id.sshCert, SshCert))
    && (forall i :: 0 <= i < |id.sshCAs| ==> IsLineText(id.sshCAs[i], Authority))
    && (forall i :: 0 <= i < |id.tlsCAs| ==> IsBlockText(id.tlsCAs[i]))
  }

  lemma NormalAuthorities(id: Identity)
    requires NormalTexts(id)
    ensures Norm(id).sshCAs == id.sshCAs && Norm(id).tlsCAs == id.tlsCAs
    ensures forall i :: 0 <= i < |id.sshCAs| ==> IsOne(Field(id.sshCAs[i]), Authority)
    ensures forall i :: 0 <= i < |id.tlsCAs| ==> IsBlock(Field(id.tlsCAs[i]))
  {
    FieldsOfLines(id.sshCAs);
    FieldsOfBlocks(id.tlsCAs);
  }

  lemma NormalSingles(id: Identity)
    requires NormalTexts(id)
    ensures Norm(id).key == id.key && Norm(id).sshCert == id.sshCert && Norm(id).tlsCert == id.tlsCert
    ensures id.key == "" || IsBlock(Field(id.key))
    ensures id.sshCert == "" || IsOne(Field(id.sshCert), SshCert)
    ensures id.tlsCert == "" || IsBlock(Field(id.tlsCert))
  {
    BlockOrNothing(id.key);
    BlockOrNothing(id.tlsCert);
    LineOrNothing(id.sshCert);
  }

  lemma NormalIdentity(id: Identity)
    requires NormalTexts(id)
    ensures WellFormed(id) && Norm(id) == id
  {
    NormalSingles(id);
    NormalAuthorities(id);
  }

  lemma PlacedIsNormal(f: Found)
    requires Normal(f)
    ensures WellFormed(Place(f)) && Positioned(Place(f)) && Norm(Place(f)) == Place(f)
  {
    forall i | 0 <= i < |f.blocks| ensures f.blocks[i] != "" {
      FieldOfBlock(f.blocks[i]);
    }
    NormalIdentity(Place(f));
  }

  /** decode(encode(decode(s))) == decode(s), for every text that decodes. */
  lemma DecodeEncodeDecode(text: string)
    requires Meaning(Lines(text)).Some?
    ensures Meaning(Lines(WriteAll(Parts(Meaning(Lines(text)).value)))) == Meaning(Lines(text))
  {
    LinesAreClean(text);
    NormalFeedAll(Lines(text));
    var f := FeedAll(NOTHING, Lines(text));
    PlacedIsNormal(f);
    RoundTripIff(Place(f));
  }
}
