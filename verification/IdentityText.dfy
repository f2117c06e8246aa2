/**
 What the decoder's first look at a text amounts to: where lines end, what is trimmed off them, and
 which lines are certificates.
 */
module IdentityText {
  import opened Chars
  import opened IdentityFile

  // ---------- Where lines end ----------

  predicate EndsLine(s: string) { s != "" && s[|s| - 1] == '\n' }

  /** Texts one under the other, each with its newline. */
  function Unlines(ls: seq<string>): string {
    if ls == [] then "" else ls[0] + "\n" + Unlines(ls[1..])
  }

  lemma UnlinesPrepend(c: char, rest: seq<string>)
    ensures Unlines(Prepend(c, rest))
         == (if c == '\n' then "\n" + Unlines(rest) else if rest == [] then [c] + "\n" else [c] + Unlines(rest))
  {
    var all := Prepend(c, rest);
    if c == '\n' {
      assert all[1..] == rest;
    } else if rest == [] {
      assert all[1..] == [];
    } else {
      assert all[1..] == rest[1..];
      assert [c] + rest[0] + "\n" + Unlines(rest[1..]) == [c] + (rest[0] + "\n" + Unlines(rest[1..]));
    }
  }

  /** The lines put together again are the text, with a newline at the end if it lacks one. */
  lemma {:induction false} CutIsUndone(s: string)
    ensures Unlines(Cut(s)) == (if s == "" || EndsLine(s) then s else s + "\n")
  {
    if s != "" {
      CutIsUndone(s[1..]);
      UnlinesPrepend(s[0], Cut(s[1..]));
      assert s == [s[0]] + s[1..];
      if s[1..] == "" {
        assert s == [s[0]];
      } else {
        CutNotEmpty(s[1..]);
        assert EndsLine(s) == EndsLine(s[1..]);
        assert [s[0]] + (s[1..] + "\n") == s + "\n";
      }
    }
  }

  lemma CutNotEmpty(s: string)
    requires s != ""
    ensures Cut(s) != []
  {}

  lemma {:induction false} CutHasNoNewline(s: string)
    ensures forall i :: 0 <= i < |Cut(s)| ==> '\n' !in Cut(s)[i]
  {
    if s != "" { CutHasNoNewline(s[1..]); }
  }

  /** A last line without a newline is a line like any other. */
  lemma {:induction false} LastLineCounts(s: string)
    requires s != "" && !EndsLine(s)
    ensures Cut(s + "\n") == Cut(s) && Lines(s + "\n") == Lines(s)
  {
    var t := s + "\n";
    assert t[0] == s[0] && t[1..] == s[1..] + "\n";
    if |s| == 1 {
      assert s[1..] == "" && t[1..] == "\n" && "\n"[1..] == "";
      assert Cut("\n") == [""];
      assert [s[0]] + "" == [s[0]];
    } else {
      LastLineCounts(s[1..]);
    }
  }

  // ---------- What is trimmed ----------

  predicate AllSpace(s: string) { forall i :: 0 <= i < |s| ==> IsSpace(s[i]) }

  /** The code points with the Unicode property White_Space. */
  predicate IsSpaceCode(n: int) {
    9 <= n <= 13 || n == 32 || n == 133 || n == 160 || n == 5760 || 8192 <= n <= 8202
    || n == 8232 || n == 8233 || n == 8239 || n == 8287 || n == 12288
  }

  lemma SpaceCodes(c: char)
    ensures IsSpace(c) <==> IsSpaceCode(c as int)
  {}

  lemma {:induction false} TrimLeftSplits(s: string) returns (a: string)
    ensures s == a + TrimLeft(s) && AllSpace(a)
    ensures TrimLeft(s) == "" || !IsSpace(TrimLeft(s)[0])
  {
    if s != "" && IsSpace(s[0]) {
      var more := TrimLeftSplits(s[1..]);
      a := [s[0]] + more;
      assert s == [s[0]] + s[1..];
    } else {
      a := "";
    }
  }

  lemma {:induction false} TrimRightSplits(s: string) returns (b: string)
    ensures s == TrimRight(s) + b && AllSpace(b)
    ensures TrimRight(s) == "" || !IsSpace(TrimRight(s)[|TrimRight(s)| - 1])
    ensures TrimRight(s) == "" || TrimRight(s)[0] == s[0]
  {
    if s != "" && IsSpace(s[|s| - 1]) {
      var more := TrimRightSplits(s[..|s| - 1]);
      b := more + [s[|s| - 1]];
      assert s == s[..|s| - 1] + [s[|s| - 1]];
    } else {
      b := "";
    }
  }

  /** White space at both ends, and no more than that, is taken off. */
  lemma TrimSplits(s: string) returns (a: string, b: string)
    ensures s == a + Trim(s) + b && AllSpace(a) && AllSpace(b)
    ensures Trim(s) == "" || (!IsSpace(Trim(s)[0]) && !IsSpace(Trim(s)[|Trim(s)| - 1]))
  {
    a := TrimLeftSplits(s);
    b := TrimRightSplits(TrimLeft(s));
    assert a + (Trim(s) + b) == a + Trim(s) + b;
  }

  /** A line as the decoder sees it is the line of the file without the white space around it. */
  lemma LinesAreTrimmed(s: string, i: nat) returns (a: string, b: string)
    requires i < |Cut(s)|
    ensures |Lines(s)| == |Cut(s)| && Cut(s)[i] == a + Lines(s)[i].text + b && AllSpace(a) && AllSpace(b)
    ensures var t := Lines(s)[i].text; t == "" || (!IsSpace(t[0]) && !IsSpace(t[|t| - 1]))
    ensures Lines(s)[i].kind == Classify(Lines(s)[i].text)
  {
    var raw := Cut(s)[i];
    a, b := TrimSplits(DropCR(raw));
    if raw != DropCR(raw) {
      b := WithCR(raw, a, Trim(DropCR(raw)), b);
    }
  }

  lemma WithCR(raw: string, a: string, t: string, b: string) returns (c: string)
    requires raw != DropCR(raw) && DropCR(raw) == a + t + b && AllSpace(b)
    ensures raw == a + t + c && AllSpace(c)
  {
    c := b + "\r";
    assert raw == DropCR(raw) + "\r";
  }

  // ---------- Boundaries and certificates ----------

  /** A PEM boundary is five dashes and its word; an authority line has its mark in front. */
  lemma BoundariesAre(line: string)
    ensures IsBegin(line) <==> |line| >= 10 && line[..5] == "-----" && line[5..10] == "BEGIN"
    ensures IsEnd(line) <==> |line| >= 8 && line[..5] == "-----" && line[5..8] == "END"
    ensures IsAuthority(line) <==> |line| >= 15 && line[0] == '@' && line[1..15] == "cert-authority"
  {
    if |line| >= 10 { assert line[..10] == line[..5] + line[5..10]; }
    if |line| >= 8 { assert line[..8] == line[..5] + line[5..8]; }
    if |line| >= 15 { assert line[..15] == [line[0]] + line[1..15]; }
    PrefixIs(line, "-----BEGIN", 5);
    PrefixIs(line, "-----END", 5);
    PrefixIs(line, "@cert-authority", 1);
  }

  lemma PrefixIs(line: string, p: string, n: nat)
    requires n <= |p|
    ensures p <= line <==> |line| >= |p| && line[..n] == p[..n] && line[n..|p|] == p[n..]
  {
    if |line| >= |p| {
      assert line[..|p|] == line[..n] + line[n..|p|];
      assert p == p[..n] + p[n..];
    }
  }

  /** The first field is all of the line, or all that stands before its first space. */
  lemma {:induction false} FirstFieldIs(line: string)
    ensures ' ' !in FirstField(line) && (FirstField(line) == line || FirstField(line) + " " <= line)
  {
    if line != "" && line[0] != ' ' {
      FirstFieldIs(line[1..]);
      assert line == [line[0]] + line[1..];
    }
  }

  /** The ASCII codes of lower case letters, digits and the dash. */
  predicate IsKeyTypeCode(n: int) { n == 45 || 48 <= n <= 57 || 97 <= n <= 122 }

  ghost predicate IsCertTypeOf(t: string, name: string, version: string) {
    && name != "" && (forall i :: 0 <= i < |name| ==> IsKeyTypeCode(name[i] as int))
    && |version| == 2 && IsDigit(version[0]) && IsDigit(version[1])
    && t == name + "-cert-v" + version + "@openssh.com"
  }

  /** A certificate type is a key type, "-cert-v", a version of two digits and "@openssh.com". */
  lemma CertTypeIff(t: string)
    ensures IsCertType(t) <==> exists name, version :: IsCertTypeOf(t, name, version)
  {
    if IsCertType(t) {
      var n := |t| - 21;
      CertTypeParts(t, t[..n], t[n + 7..n + 9]);
      assert IsCertTypeOf(t, t[..n], t[n + 7..n + 9]);
    }
    forall name, version | IsCertTypeOf(t, name, version) ensures IsCertType(t) {
      CertTypeFits(t, name, version);
    }
  }

  lemma CertTypeParts(t: string, name: string, version: string)
    requires IsCertType(t) && name == t[..|t| - 21] && version == t[|t| - 14..|t| - 12]
    ensures IsCertTypeOf(t, name, version)
  {
    var n := |t| - 21;
    assert t == t[..n] + t[n..n + 7] + t[n + 7..n + 9] + t[n + 9..];
  }

  lemma CertTypeFits(t: string, name: string, version: string)
    requires IsCertTypeOf(t, name, version)
    ensures IsCertType(t)
  {
    var n := |name|;
    assert t[n..n + 7] == "-cert-v" && t[n + 9..] == "@openssh.com";
    assert t[n + 7] == version[0] && t[n + 8] == version[1];
    assert forall i :: 0 <= i < n ==> t[i] == name[i];
  }
}
