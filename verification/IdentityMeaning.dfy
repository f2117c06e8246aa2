/**
 What a decoded identity file says, stated on the file's lines alone: which lines are inside a PEM
 block, and which certificate, authorities and blocks the file therefore holds.
 */
module IdentityMeaning {
  import opened Options
  import opened IdentityFile

  /** Line a is a BEGIN line and no END comes between it and line n. */
  predicate Unclosed(ls: seq<Line>, a: int, n: int) {
    0 <= a < n <= |ls| && ls[a].kind.Begin? && forall j :: a <= j < n ==> !ls[j].kind.End?
  }

  /** A block is open in front of line n. */
  ghost predicate Inside(ls: seq<Line>, n: nat) {
    exists a :: Unclosed(ls, a, n)
  }

  function FoundBy(ls: seq<Line>, n: nat): Found
    requires n <= |ls|
  {
    FeedAll(NOTHING, ls[..n])
  }

  lemma FoundNext(ls: seq<Line>, n: nat)
    requires n < |ls|
    ensures FoundBy(ls, n + 1) == Feed(FoundBy(ls, n), ls[n])
  {
    assert ls[..n + 1] == ls[..n] + [ls[n]];
    FeedSnoc(NOTHING, ls[..n], ls[n]);
  }

  lemma InsideNext(ls: seq<Line>, n: nat)
    requires n < |ls|
    ensures Inside(ls, n + 1) <==> !ls[n].kind.End? && (Inside(ls, n) || ls[n].kind.Begin?)
  {
    if a :| Unclosed(ls, a, n) {
      if !ls[n].kind.End? { assert Unclosed(ls, a, n + 1); }
    }
    if ls[n].kind.Begin? { assert Unclosed(ls, n, n + 1); }
    var m := n + 1;
    if a :| Unclosed(ls, a, m) {
      if a < n { assert Unclosed(ls, a, n); }
    }
  }

  lemma {:induction false} OpenIsInside(ls: seq<Line>, n: nat)
    requires n <= |ls|
    ensures FoundBy(ls, n).open <==> Inside(ls, n)
    ensures !FoundBy(ls, n).open ==> FoundBy(ls, n).partial == ""
  {
    if n > 0 {
      OpenIsInside(ls, n - 1);
      FoundNext(ls, n - 1);
      InsideNext(ls, n - 1);
    }
  }

  // ---------- Lines outside blocks ----------

  ghost predicate OutsideOf(ls: seq<Line>, i: nat, kind: Kind) {
    i < |ls| && ls[i].kind == kind && !Inside(ls, i)
  }

  ghost function Authorities(ls: seq<Line>, n: nat): seq<string>
    requires n <= |ls|
  {
    if n == 0 then []
    else if OutsideOf(ls, n - 1, Authority) then Authorities(ls, n - 1) + [ls[n - 1].text]
    else Authorities(ls, n - 1)
  }

  ghost function LastCert(ls: seq<Line>, n: nat): string
    requires n <= |ls|
  {
    if n == 0 then ""
    else if OutsideOf(ls, n - 1, SshCert) then ls[n - 1].text
    else LastCert(ls, n - 1)
  }

  lemma {:induction false} OutsideLines(ls: seq<Line>, n: nat)
    requires n <= |ls|
    ensures FoundBy(ls, n).cert == LastCert(ls, n)
    ensures FoundBy(ls, n).cas == Authorities(ls, n)
  {
    if n > 0 {
      OutsideLines(ls, n - 1);
      OpenIsInside(ls, n - 1);
      FoundNext(ls, n - 1);
    }
  }

  // ---------- Blocks ----------

  datatype Span = Span(first: nat, last: nat)

  /** Lines first to last are one PEM block: begun outside any other, up to the first END. */
  ghost predicate IsSpan(ls: seq<Line>, s: Span) {
    && s.last < |ls| && ls[s.last].kind.End?
    && Unclosed(ls, s.first, s.last) && !Inside(ls, s.first)
  }

  ghost predicate IsOpening(ls: seq<Line>, a: nat, n: nat) {
    Unclosed(ls, a, n) && !Inside(ls, a)
  }

  /** The spans, in order, and what they hold. */
  ghost predicate Listed(ls: seq<Line>, n: nat, spans: seq<Span>, blocks: seq<string>) {
    Holding(ls, n, spans, blocks) && InOrder(spans) && NoneMissed(ls, n, spans)
  }

  ghost predicate Holding(ls: seq<Line>, n: nat, spans: seq<Span>, blocks: seq<string>) {
    && |spans| == |blocks|
    && (forall k :: 0 <= k < |spans| ==>
          IsSpan(ls, spans[k]) && spans[k].last < n && blocks[k] == Join(ls[spans[k].first..spans[k].last + 1]))
  }

  predicate InOrder(spans: seq<Span>) {
    forall j, k :: 0 <= j < k < |spans| ==> spans[j].last < spans[k].first
  }

  ghost predicate NoneMissed(ls: seq<Line>, n: nat, spans: seq<Span>) {
    forall s :: IsSpan(ls, s) && s.last < n ==> s in spans
  }

  ghost predicate Pending(ls: seq<Line>, n: nat, f: Found) {
    n <= |ls| && (f.open ==> exists a: nat :: IsOpening(ls, a, n) && f.partial == Join(ls[a..n]))
  }

  lemma JoinSnoc(ls: seq<Line>, x: Line)
    ensures Join(ls + [x]) == Join(ls) + Terminated(x)
  {
    assert (ls + [x])[..|ls|] == ls;
  }

  lemma LaterIsInside(ls: seq<Line>, a: nat, b: nat, n: nat)
    requires Unclosed(ls, a, n) && b <= n
    ensures a < b ==> Inside(ls, b)
  {
    if a < b { assert Unclosed(ls, a, b); }
  }

  lemma OpeningIsUnique(ls: seq<Line>, a: nat, b: nat, n: nat)
    requires IsOpening(ls, a, n) && IsOpening(ls, b, n)
    ensures a == b
  {
    LaterIsInside(ls, a, b, n);
    LaterIsInside(ls, b, a, n);
  }

  lemma PendingNext(ls: seq<Line>, n: nat)
    requires n < |ls| && Pending(ls, n, FoundBy(ls, n))
    ensures Pending(ls, n + 1, FoundBy(ls, n + 1))
  {
    FoundNext(ls, n);
    OpenIsInside(ls, n);
    var f := FoundBy(ls, n);
    if f.open {
      var a: nat :| IsOpening(ls, a, n) && f.partial == Join(ls[a..n]);
      assert ls[a..n + 1] == ls[a..n] + [ls[n]];
      JoinSnoc(ls[a..n], ls[n]);
      if !ls[n].kind.End? { assert IsOpening(ls, a, n + 1); }
    } else if ls[n].kind.Begin? {
      assert IsOpening(ls, n, n + 1);
      assert ls[n..n + 1] == [] + [ls[n]];
      JoinSnoc([], ls[n]);
    }
  }

  lemma ClosedBefore(ls: seq<Line>, n: nat, a: nat, s: Span)
    requires IsOpening(ls, a, n) && IsSpan(ls, s) && s.last < n
    ensures s.last < a
  {
    if a <= s.last { LaterIsInside(ls, s.first, a, s.last); }
  }

  lemma ListedClose(ls: seq<Line>, n: nat, a: nat, spans: seq<Span>, blocks: seq<string>)
    requires n < |ls| && ls[n].kind.End? && IsOpening(ls, a, n) && Listed(ls, n, spans, blocks)
    ensures Listed(ls, n + 1, spans + [Span(a, n)], blocks + [Join(ls[a..n + 1])])
  {
    forall k | 0 <= k < |spans| ensures spans[k].last < a {
      ClosedBefore(ls, n, a, spans[k]);
    }
    StillInOrder(spans, Span(a, n));
    NoneMissedAtClose(ls, n, a, spans);
  }

  lemma StillInOrder(spans: seq<Span>, s: Span)
    requires InOrder(spans) && forall k :: 0 <= k < |spans| ==> spans[k].last < s.first
    ensures InOrder(spans + [s])
  {}

  lemma NoneMissedAtClose(ls: seq<Line>, n: nat, a: nat, spans: seq<Span>)
    requires n < |ls| && IsOpening(ls, a, n) && NoneMissed(ls, n, spans)
    ensures NoneMissed(ls, n + 1, spans + [Span(a, n)])
  {
    forall s | IsSpan(ls, s) && s.last < n + 1 ensures s in spans + [Span(a, n)] {
      if s.last == n {
        OpeningIsUnique(ls, s.first, a, n);
        assert s == Span(a, n);
      } else {
        assert s in spans;
      }
    }
  }

  lemma ListedQuiet(ls: seq<Line>, n: nat, spans: seq<Span>, blocks: seq<string>)
    requires n < |ls| && (!ls[n].kind.End? || !Inside(ls, n)) && Listed(ls, n, spans, blocks)
    ensures Listed(ls, n + 1, spans, blocks)
  {
    forall s | IsSpan(ls, s) && s.last < n + 1 ensures s in spans {
      LaterIsInside(ls, s.first, s.last, s.last);
    }
  }

  lemma ListedNext(ls: seq<Line>, n: nat, spans: seq<Span>) returns (now: seq<Span>)
    requires n < |ls| && Pending(ls, n, FoundBy(ls, n)) && Listed(ls, n, spans, FoundBy(ls, n).blocks)
    ensures Listed(ls, n + 1, now, FoundBy(ls, n + 1).blocks)
  {
    FoundNext(ls, n);
    OpenIsInside(ls, n);
    var f := FoundBy(ls, n);
    if f.open && ls[n].kind.End? {
      var a: nat :| IsOpening(ls, a, n) && f.partial == Join(ls[a..n]);
      assert ls[a..n + 1] == ls[a..n] + [ls[n]];
      JoinSnoc(ls[a..n], ls[n]);
      ListedClose(ls, n, a, spans, f.blocks);
      now := spans + [Span(a, n)];
    } else {
      ListedQuiet(ls, n, spans, f.blocks);
      now := spans;
    }
  }

  lemma {:induction false} BlocksAreSpans(ls: seq<Line>, n: nat) returns (spans: seq<Span>)
    requires n <= |ls|
    ensures Pending(ls, n, FoundBy(ls, n)) && Listed(ls, n, spans, FoundBy(ls, n).blocks)
  {
    if n == 0 {
      spans := [];
    } else {
      var before := BlocksAreSpans(ls, n - 1);
      PendingNext(ls, n - 1);
      spans := ListedNext(ls, n - 1, before);
    }
  }

  /** The PEM blocks of an identity in the order in which a file holds them. */
  function PemBlocks(id: Identity): seq<string> {
    (if id.key == "" then [] else [id.key]) + (if id.tlsCert == "" then [] else [id.tlsCert]) + id.tlsCAs
  }

  lemma {:induction false} BlocksNotEmpty(ls: seq<Line>, n: nat)
    requires n <= |ls|
    ensures NoEmptyBlocks(FoundBy(ls, n))
  {
    if n > 0 {
      BlocksNotEmpty(ls, n - 1);
      FoundNext(ls, n - 1);
    }
  }

  lemma PlacedBlocks(f: Found)
    requires NoEmptyBlocks(f)
    ensures PemBlocks(Place(f)) == f.blocks
  {}

  /** Decoding fails exactly when a block is left unterminated. */
  lemma FailsIffUnterminated(text: string)
    ensures Meaning(Lines(text)).None? <==> Inside(Lines(text), |Lines(text)|)
  {
    var ls := Lines(text);
    assert ls[..|ls|] == ls;
    OpenIsInside(ls, |ls|);
  }

  /** Otherwise the identity is the file's blocks, authority lines and last certificate line. */
  lemma DecodedMeaning(text: string) returns (spans: seq<Span>)
    requires Meaning(Lines(text)).Some?
    ensures var ls, id := Lines(text), Meaning(Lines(text)).value;
      && id.sshCert == LastCert(ls, |ls|)
      && id.sshCAs == Authorities(ls, |ls|)
      && Listed(ls, |ls|, spans, PemBlocks(id))
      && (id.key == "" ==> id.tlsCert == "") && (id.tlsCert == "" ==> id.tlsCAs == [])
  {
    var ls := Lines(text);
    assert ls[..|ls|] == ls;
    OutsideLines(ls, |ls|);
    spans := BlocksAreSpans(ls, |ls|);
    BlocksNotEmpty(ls, |ls|);
    PlacedBlocks(FoundBy(ls, |ls|));
  }
}
