/** Cutting a style sheet at its url(...) references (templates/fetchJS/main.go, `fontCSS`). */
module Segments {
  datatype Part = Literal(text: string) | Fetch(url: string)

  /** The submatch of one match of `url(...)`: `si` and `ei` delimit what is between the parentheses. */
  datatype Match = Match(si: int, ei: int)

  predicate IsMatch(bs: string, m: Match) {
    && 4 <= m.si < m.ei < |bs|
    && bs[m.si - 4] == 'u' && bs[m.si - 3] == 'r' && bs[m.si - 2] == 'l' && bs[m.si - 1] == '(' && bs[m.ei] == ')'
  }

  function EndOf(ms: seq<Match>, n: nat): int
    requires n <= |ms|
  {
    if n == 0 then 0 else ms[n - 1].ei + 1
  }

  /** Match `i` starts, with its `url(`, at or after the end of the match before it. */
  predicate MatchAt(bs: string, ms: seq<Match>, i: nat)
    requires i < |ms|
  {
    IsMatch(bs, ms[i]) && EndOf(ms, i) <= ms[i].si - 4
  }

  /** What the regular expression engine returns: matches from left to right without overlap. */
  predicate Matches(bs: string, ms: seq<Match>) {
    forall i: nat :: i < |ms| ==> MatchAt(bs, ms, i)
  }

  /** The source text a part stands for. */
  function SourceOf(p: Part): string {
    match p case Literal(text) => text case Fetch(url) => "(" + url + ")"
  }

  function RebuildFirst(parts: seq<Part>, n: nat): string
    requires n <= |parts|
  {
    if n == 0 then "" else RebuildFirst(parts, n - 1) + SourceOf(parts[n - 1])
  }

  function Rebuild(parts: seq<Part>): string {
    RebuildFirst(parts, |parts|)
  }

  function UrlsFirst(parts: seq<Part>, n: nat): seq<string>
    requires n <= |parts|
  {
    if n == 0 then [] else UrlsFirst(parts, n - 1) + (if parts[n - 1].Fetch? then [parts[n - 1].url] else [])
  }

  function Urls(parts: seq<Part>): seq<string> {
    UrlsFirst(parts, |parts|)
  }

  predicate EndsInMatch(bs: string, ms: seq<Match>) {
    ms != [] && ms[|ms| - 1].ei == |bs| - 1
  }

  lemma {:induction false} FirstOfMore(parts: seq<Part>, p: Part, n: nat)
    requires n <= |parts|
    ensures RebuildFirst(parts + [p], n) == RebuildFirst(parts, n) && UrlsFirst(parts + [p], n) == UrlsFirst(parts, n)
  {
    if n > 0 {
      FirstOfMore(parts, p, n - 1);
    }
  }

  lemma {:induction false} AddPart(parts: seq<Part>, p: Part)
    ensures Rebuild(parts + [p]) == Rebuild(parts) + SourceOf(p)
    ensures Urls(parts + [p]) == Urls(parts) + (if p.Fetch? then [p.url] else [])
  {
    FirstOfMore(parts, p, |parts|);
  }

  /** The first `n` references of the sheet, in order. */
  function References(bs: string, ms: seq<Match>, n: nat): seq<string>
    requires n <= |ms| && Matches(bs, ms)
  {
    if n == 0 then []
    else
      assert MatchAt(bs, ms, n - 1);
      References(bs, ms, n - 1) + [bs[ms[n - 1].si..ms[n - 1].ei]]
  }

  lemma Glue(bs: string, start: int, si: int, ei: int)
    requires 0 <= start < si < ei < |bs| && bs[si - 1] == '(' && bs[ei] == ')'
    ensures bs[..start] + bs[start..si - 1] + ("(" + bs[si..ei] + ")") == bs[..ei + 1]
  {
    Join(bs, start, si - 1);
    Parenthesised(bs, si, ei);
    Join(bs, si - 1, ei + 1);
  }

  lemma Join(bs: string, a: int, b: int)
    requires 0 <= a <= b <= |bs|
    ensures bs[..a] + bs[a..b] == bs[..b]
  {
  }

  lemma Parenthesised(bs: string, si: int, ei: int)
    requires 0 < si < ei < |bs| && bs[si - 1] == '(' && bs[ei] == ')'
    ensures "(" + bs[si..ei] + ")" == bs[si - 1..ei + 1]
  {
  }

  lemma {:induction false} AddTwo(parts: seq<Part>, literal: string, url: string)
    ensures Rebuild(parts + [Literal(literal)] + [Fetch(url)]) == Rebuild(parts) + literal + ("(" + url + ")")
    ensures Urls(parts + [Literal(literal)] + [Fetch(url)]) == Urls(parts) + [url]
  {
    AddPart(parts, Literal(literal));
    AddPart(parts + [Literal(literal)], Fetch(url));
    assert Urls(parts) + [] == Urls(parts);
  }

  lemma {:induction false} AddText(parts: seq<Part>, bs: string, start: int, si: int, ei: int)
    requires 0 <= start < si < ei < |bs| && bs[si - 1] == '(' && bs[ei] == ')' && Rebuild(parts) == bs[..start]
    ensures var next := parts + [Literal(bs[start..si - 1])] + [Fetch(bs[si..ei])];
            Rebuild(next) == bs[..ei + 1] && Urls(next) == Urls(parts) + [bs[si..ei]]
  {
    Glue(bs, start, si, ei);
    AddTwo(parts, bs[start..si - 1], bs[si..ei]);
  }

  lemma {:induction false} AddTail(parts: seq<Part>, bs: string, end: int)
    requires 0 <= end < |bs| && Rebuild(parts) == bs[..end]
    ensures var next := parts + [Literal(bs[end..|bs| - 1])];
            Rebuild(next) == bs[..|bs| - 1] && Urls(next) == Urls(parts)
  {
    AddPart(parts, Literal(bs[end..|bs| - 1]));
    assert bs[..end] + bs[end..|bs| - 1] == bs[..|bs| - 1];
    assert Urls(parts) + [] == Urls(parts);
  }

  /** The parts up to the end of match `n`: the text between matches, without the opening parenthesis, and the urls. */
  function Cuts(bs: string, ms: seq<Match>, n: nat): seq<Part>
    requires Matches(bs, ms) && n <= |ms|
  {
    if n == 0 then []
    else
      StartsBefore(bs, ms, n - 1);
      var m := ms[n - 1];
      Cuts(bs, ms, n - 1) + [Literal(bs[EndOf(ms, n - 1)..m.si - 1])] + [Fetch(bs[m.si..m.ei])]
  }

  /** A match leaves room before its parenthesis, and stays inside the sheet. */
  lemma {:induction false} StartsBefore(bs: string, ms: seq<Match>, n: nat)
    requires Matches(bs, ms) && n < |ms|
    ensures IsMatch(bs, ms[n]) && 0 <= EndOf(ms, n) < ms[n].si - 1 && EndOf(ms, n) <= |bs|
  {
    assert MatchAt(bs, ms, n);
    if n > 0 {
      assert MatchAt(bs, ms, n - 1);
    }
  }

  lemma {:induction false} EndInside(bs: string, ms: seq<Match>)
    requires Matches(bs, ms)
    ensures 0 <= EndOf(ms, |ms|) <= |bs| && (EndOf(ms, |ms|) == |bs| <==> bs == "" || EndsInMatch(bs, ms))
  {
    if ms != [] {
      StartsBefore(bs, ms, |ms| - 1);
    }
  }

  /** All parts: those of the matches, then what is left of the sheet without its final byte. */
  function AllParts(bs: string, ms: seq<Match>): seq<Part>
    requires Matches(bs, ms) && bs != "" && !EndsInMatch(bs, ms)
  {
    var (cuts, end) := (Cuts(bs, ms, |ms|), EndOf(ms, |ms|));
    EndInside(bs, ms);
    if end == |bs| - 1 then cuts else cuts + [Literal(bs[end..|bs| - 1])]
  }

  /** One match adds the text before it and its reference. */
  predicate Adds(bs: string, m: Match, parts: seq<Part>, refs: seq<string>, end: int, parts': seq<Part>,
          refs': seq<string>) {
    && IsMatch(bs, m) && 0 <= end < m.si - 1 && refs' == refs + [bs[m.si..m.ei]]
    && parts' == parts + [Literal(bs[end..m.si - 1])] + [Fetch(bs[m.si..m.ei])]
  }

  lemma {:induction false} CutsStep(bs: string, ms: seq<Match>, n: nat)
    requires Matches(bs, ms) && n < |ms|
    ensures Adds(bs, ms[n], Cuts(bs, ms, n), References(bs, ms, n), EndOf(ms, n), Cuts(bs, ms, n + 1),
                 References(bs, ms, n + 1))
    ensures EndOf(ms, n + 1) == ms[n].ei + 1
  {
    StartsBefore(bs, ms, n);
  }

  // ---------------------------------------------------------------- what the parts are

  /** The parts stand for the sheet up to `end` and contain the references `refs`. */
  ghost predicate SoFar(bs: string, parts: seq<Part>, refs: seq<string>, end: int) {
    0 <= end <= |bs| && Rebuild(parts) == bs[..end] && Urls(parts) == refs
  }

  lemma {:induction false} SoFarStep(bs: string, m: Match, parts: seq<Part>, refs: seq<string>, end: int,
                                     parts': seq<Part>, refs': seq<string>)
    requires SoFar(bs, parts, refs, end) && Adds(bs, m, parts, refs, end, parts', refs')
    ensures SoFar(bs, parts', refs', m.ei + 1)
  {
    AddText(parts, bs, end, m.si, m.ei);
  }

  lemma {:induction false} NextCut(bs: string, ms: seq<Match>, n: nat, before: seq<Part>, earlier: seq<string>)
    returns (parts: seq<Part>, refs: seq<string>)
    requires Matches(bs, ms) && n < |ms| && before == Cuts(bs, ms, n) && earlier == References(bs, ms, n)
    requires SoFar(bs, before, earlier, EndOf(ms, n))
    ensures parts == Cuts(bs, ms, n + 1) && refs == References(bs, ms, n + 1)
    ensures SoFar(bs, parts, refs, EndOf(ms, n + 1))
  {
    CutsStep(bs, ms, n);
    parts, refs := Cuts(bs, ms, n + 1), References(bs, ms, n + 1);
    SoFarStep(bs, ms[n], before, earlier, EndOf(ms, n), parts, refs);
  }

  lemma {:induction false} CutsRebuild(bs: string, ms: seq<Match>, n: nat) returns (parts: seq<Part>, refs: seq<string>)
    requires Matches(bs, ms) && n <= |ms|
    ensures parts == Cuts(bs, ms, n) && refs == References(bs, ms, n) && SoFar(bs, parts, refs, EndOf(ms, n))
  {
    if n == 0 {
      return [], [];
    }
    var before, earlier := CutsRebuild(bs, ms, n - 1);
    parts, refs := NextCut(bs, ms, n - 1, before, earlier);
  }

  /** Reassembly: the parts with the parentheses put back are the sheet without its final byte, and the fetched
      parts are its references in order. */
  lemma {:induction false} PartsReassemble(bs: string, ms: seq<Match>)
    requires Matches(bs, ms) && bs != "" && !EndsInMatch(bs, ms)
    ensures Rebuild(AllParts(bs, ms)) == bs[..|bs| - 1] && Urls(AllParts(bs, ms)) == References(bs, ms, |ms|)
  {
    var cuts, refs := CutsRebuild(bs, ms, |ms|);
    EndInside(bs, ms);
    LastPart(bs, cuts, refs, EndOf(ms, |ms|));
  }

  lemma {:induction false} LastPart(bs: string, cuts: seq<Part>, refs: seq<string>, end: int)
    requires SoFar(bs, cuts, refs, end) && end < |bs|
    ensures var parts := if end == |bs| - 1 then cuts else cuts + [Literal(bs[end..|bs| - 1])];
            Rebuild(parts) == bs[..|bs| - 1] && Urls(parts) == refs
  {
    if end != |bs| - 1 {
      AddTail(cuts, bs, end);
    }
  }

  // ---------------------------------------------------------------- what is sent

  /** The text of reference `i`. */
  function ReferenceAt(bs: string, ms: seq<Match>, i: nat): string
    requires Matches(bs, ms) && i < |ms|
  {
    assert MatchAt(bs, ms, i);
    bs[ms[i].si..ms[i].ei]
  }

  /** The first reference from `i` on whose url is not accepted; the number of references when all are. */
  function FirstRejected(bs: string, ms: seq<Match>, accepted: string -> bool, i: nat): (n: nat)
    requires Matches(bs, ms) && i <= |ms|
    ensures i <= n <= |ms| && forall k :: i <= k < n ==> accepted(ReferenceAt(bs, ms, k))
    ensures n < |ms| ==> !accepted(ReferenceAt(bs, ms, n))
    decreases |ms| - i
  {
    if i < |ms| && accepted(ReferenceAt(bs, ms, i)) then FirstRejected(bs, ms, accepted, i + 1) else i
  }

  datatype Ending = Complete | Rejects | Panics

  /** What the loop sends before it ends, one way or another. */
  function SentParts(bs: string, ms: seq<Match>, accepted: string -> bool): seq<Part>
    requires Matches(bs, ms)
  {
    var n := FirstRejected(bs, ms, accepted, 0);
    if n < |ms| then
      StartsBefore(bs, ms, n);
      Cuts(bs, ms, n) + [Literal(bs[EndOf(ms, n)..ms[n].si - 1])]
    else if bs == "" || EndsInMatch(bs, ms) then Cuts(bs, ms, n)
    else AllParts(bs, ms)
  }

  /** The parts, with the parentheses put back, are the sheet up to `end`, and the fetches its first `n` references. */
  ghost predicate StandFor(bs: string, ms: seq<Match>, parts: seq<Part>, n: nat, end: int)
    requires Matches(bs, ms)
  {
    n <= |ms| && SoFar(bs, parts, References(bs, ms, n), end)
  }

  /** Reference `n` is the first one that is not accepted. */
  predicate RejectedFirst(bs: string, ms: seq<Match>, accepted: string -> bool, n: nat)
    requires Matches(bs, ms)
  {
    && n < |ms| && !accepted(ReferenceAt(bs, ms, n))
    && forall k: nat :: k < n ==> accepted(ReferenceAt(bs, ms, k))
  }

  /** What has been sent when the loop ends: all of the sheet but its final byte, or all up to the parenthesis of the
      reference that is not accepted, or all of a sheet that is empty or ends in a reference. */
  ghost predicate SentAt(bs: string, ms: seq<Match>, accepted: string -> bool, parts: seq<Part>, ending: Ending)
    requires Matches(bs, ms)
  {
    match ending
    case Complete => bs != "" && StandFor(bs, ms, parts, |ms|, |bs| - 1)
    case Panics => StandFor(bs, ms, parts, |ms|, |bs|)
    case Rejects => exists n: nat ::
        RejectedFirst(bs, ms, accepted, n) && StandFor(bs, ms, parts, n, ms[n].si - 1)
  }

  /** How the loop ends. */
  function EndingOf(bs: string, ms: seq<Match>, accepted: string -> bool): Ending
    requires Matches(bs, ms)
  {
    if FirstRejected(bs, ms, accepted, 0) < |ms| then Rejects
    else if bs == "" || EndsInMatch(bs, ms) then Panics
    else Complete
  }

  lemma {:induction false} TextReassemble(bs: string, parts: seq<Part>, refs: seq<string>, end: int, next: int)
    returns (parts': seq<Part>)
    requires SoFar(bs, parts, refs, end) && end <= next <= |bs|
    ensures parts' == parts + [Literal(bs[end..next])] && SoFar(bs, parts', refs, next)
  {
    parts' := parts + [Literal(bs[end..next])];
    AddPart(parts, Literal(bs[end..next]));
    Join(bs, end, next);
    assert refs + [] == refs;
  }

  lemma {:induction false} WholeReassemble(bs: string, ms: seq<Match>)
    requires Matches(bs, ms) && (bs == "" || EndsInMatch(bs, ms))
    ensures StandFor(bs, ms, Cuts(bs, ms, |ms|), |ms|, |bs|)
  {
    var cuts, refs := CutsRebuild(bs, ms, |ms|);
    EndInside(bs, ms);
  }

  /** The parts that are sent are the sheet, up to where the loop ends. */
  lemma {:induction false} SentReassemble(bs: string, ms: seq<Match>, accepted: string -> bool)
    requires Matches(bs, ms)
    ensures SentAt(bs, ms, accepted, SentParts(bs, ms, accepted), EndingOf(bs, ms, accepted))
  {
    var n := FirstRejected(bs, ms, accepted, 0);
    if n < |ms| {
      SentRejected(bs, ms, accepted, n);
    } else if bs == "" || EndsInMatch(bs, ms) {
      SentWhole(bs, ms, accepted);
    } else {
      SentComplete(bs, ms, accepted);
    }
  }

  lemma {:induction false} SentWhole(bs: string, ms: seq<Match>, accepted: string -> bool)
    requires Matches(bs, ms) && FirstRejected(bs, ms, accepted, 0) == |ms| && (bs == "" || EndsInMatch(bs, ms))
    ensures SentAt(bs, ms, accepted, SentParts(bs, ms, accepted), Panics)
  {
    WholeReassemble(bs, ms);
  }

  lemma {:induction false} SentComplete(bs: string, ms: seq<Match>, accepted: string -> bool)
    requires Matches(bs, ms) && FirstRejected(bs, ms, accepted, 0) == |ms| && bs != "" && !EndsInMatch(bs, ms)
    ensures SentAt(bs, ms, accepted, SentParts(bs, ms, accepted), Complete)
  {
    CompleteReassemble(bs, ms);
  }

  lemma {:induction false} CompleteReassemble(bs: string, ms: seq<Match>)
    requires Matches(bs, ms) && bs != "" && !EndsInMatch(bs, ms)
    ensures StandFor(bs, ms, AllParts(bs, ms), |ms|, |bs| - 1)
  {
    PartsReassemble(bs, ms);
  }

  lemma {:induction false} SentRejected(bs: string, ms: seq<Match>, accepted: string -> bool, n: nat)
    requires Matches(bs, ms) && n == FirstRejected(bs, ms, accepted, 0) && n < |ms|
    ensures SentAt(bs, ms, accepted, SentParts(bs, ms, accepted), Rejects)
  {
    var sent, cuts, end, text := LastText(bs, ms, accepted, n);
    var refs := CutsSoFar(bs, ms, n, cuts, end);
    var parts := TextReassemble(bs, cuts, refs, end, ms[n].si - 1);
    RejectsAt(bs, ms, accepted, n, parts, refs);
  }

  /** The last text that is sent before the loop rejects reference `n`. */
  lemma {:induction false} LastText(bs: string, ms: seq<Match>, accepted: string -> bool, n: nat)
    returns (sent: seq<Part>, cuts: seq<Part>, end: int, text: string)
    requires Matches(bs, ms) && n == FirstRejected(bs, ms, accepted, 0) && n < |ms|
    ensures cuts == Cuts(bs, ms, n) && end == EndOf(ms, n) && 0 <= end < ms[n].si - 1 <= |bs|
    ensures text == bs[end..ms[n].si - 1] && sent == SentParts(bs, ms, accepted) == cuts + [Literal(text)]
  {
    StartsBefore(bs, ms, n);
    sent, cuts, end := SentParts(bs, ms, accepted), Cuts(bs, ms, n), EndOf(ms, n);
    text := bs[end..ms[n].si - 1];
  }

  lemma {:induction false} CutsSoFar(bs: string, ms: seq<Match>, n: nat, cuts: seq<Part>, end: int)
    returns (refs: seq<string>)
    requires Matches(bs, ms) && n <= |ms| && cuts == Cuts(bs, ms, n) && end == EndOf(ms, n)
    ensures refs == References(bs, ms, n) && SoFar(bs, cuts, refs, end)
  {
    var parts;
    parts, refs := CutsRebuild(bs, ms, n);
  }

  lemma {:induction false} RejectsAt(bs: string, ms: seq<Match>, accepted: string -> bool, n: nat, parts: seq<Part>,
                                     refs: seq<string>)
    requires Matches(bs, ms) && n == FirstRejected(bs, ms, accepted, 0) && n < |ms| && refs == References(bs, ms, n)
    requires SoFar(bs, parts, refs, ms[n].si - 1)
    ensures SentAt(bs, ms, accepted, parts, Rejects)
  {
    assert RejectedFirst(bs, ms, accepted, n);
  }

  /** The loop ends with an error exactly when some reference is not accepted, and slices out of range exactly when all
      are and the sheet is empty or ends in a reference. */
  ghost predicate EndsRightly(bs: string, ms: seq<Match>, accepted: string -> bool, ending: Ending)
    requires Matches(bs, ms)
  {
    && (ending == Rejects <==> exists n: nat :: RejectedFirst(bs, ms, accepted, n))
    && (ending == Panics <==> AllAccepted(bs, ms, accepted) && (bs == "" || EndsInMatch(bs, ms)))
  }

  predicate AllAccepted(bs: string, ms: seq<Match>, accepted: string -> bool)
    requires Matches(bs, ms)
  {
    forall k: nat :: k < |ms| ==> accepted(ReferenceAt(bs, ms, k))
  }

  lemma {:induction false} EndingMeans(bs: string, ms: seq<Match>, accepted: string -> bool)
    requires Matches(bs, ms)
    ensures EndsRightly(bs, ms, accepted, EndingOf(bs, ms, accepted))
  {
    var n := FirstRejected(bs, ms, accepted, 0);
    if n < |ms| {
      assert RejectedFirst(bs, ms, accepted, n);
    }
  }

  lemma {:induction false} Ended(bs: string, ms: seq<Match>, accepted: string -> bool, parts: seq<Part>, ending: Ending)
    requires Matches(bs, ms) && parts == SentParts(bs, ms, accepted) && ending == EndingOf(bs, ms, accepted)
    ensures SentAt(bs, ms, accepted, parts, ending) && EndsRightly(bs, ms, accepted, ending)
  {
    SentReassemble(bs, ms, accepted);
    EndingMeans(bs, ms, accepted);
  }

  lemma {:induction false} EndedAt(bs: string, ms: seq<Match>, accepted: string -> bool, i: nat, cuts: seq<Part>,
                                   parts: seq<Part>)
    requires Matches(bs, ms) && i < |ms| && !accepted(ReferenceAt(bs, ms, i))
    requires FirstRejected(bs, ms, accepted, 0) == FirstRejected(bs, ms, accepted, i)
    requires cuts == Cuts(bs, ms, i) && 0 <= EndOf(ms, i) < ms[i].si - 1 <= |bs|
    requires parts == cuts + [Literal(bs[EndOf(ms, i)..ms[i].si - 1])]
    ensures parts == SentParts(bs, ms, accepted)
    ensures SentAt(bs, ms, accepted, parts, Rejects) && EndsRightly(bs, ms, accepted, Rejects)
  {
    Ended(bs, ms, accepted, parts, Rejects);
  }

  /** The cutting loop. `accepted` says which references are urls of a known type. It returns an error at the first
      reference that is not, slices out of range exactly when all are and the sheet is empty or ends in a match, and
      otherwise completes; what it has sent by then stands for the sheet that far. */
  method Segment(bs: string, ms: seq<Match>, accepted: string -> bool) returns (parts: seq<Part>, ending: Ending)
    requires Matches(bs, ms)
    ensures parts == SentParts(bs, ms, accepted)
    ensures SentAt(bs, ms, accepted, parts, ending) && EndsRightly(bs, ms, accepted, ending)
  {
    parts := [];
    var lastIndex := 0;
    for i := 0 to |ms|
      invariant lastIndex == EndOf(ms, i) && 0 <= lastIndex <= |bs| && parts == Cuts(bs, ms, i)
      invariant FirstRejected(bs, ms, accepted, 0) == FirstRejected(bs, ms, accepted, i)
    {
      var si, ei := ms[i].si, ms[i].ei;
      CutsStep(bs, ms, i);
      ghost var cuts := parts;
      if lastIndex != si {
        parts := parts + [Literal(bs[lastIndex..si - 1])];
        lastIndex := ei + 1;
      }
      assert bs[si..ei] == ReferenceAt(bs, ms, i);
      if !accepted(bs[si..ei]) {
        EndedAt(bs, ms, accepted, i, cuts, parts);
        return parts, Rejects;
      }
      parts := parts + [Fetch(bs[si..ei])];
    }
    EndInside(bs, ms);
    if lastIndex != |bs| - 1 {
      if lastIndex > |bs| - 1 {
        Ended(bs, ms, accepted, parts, Panics);
        return parts, Panics;
      }
      parts := parts + [Literal(bs[lastIndex..|bs| - 1])];
    }
    Ended(bs, ms, accepted, parts, Complete);
    return parts, Complete;
  }

  /** Text and fetches take turns. */
  predicate Alternates(parts: seq<Part>, n: nat) {
    |parts| == 2 * n && forall i :: 0 <= i < |parts| ==> (parts[i].Fetch? <==> i % 2 == 1)
  }

  lemma {:induction false} CutsAlternate(bs: string, ms: seq<Match>, n: nat)
    requires Matches(bs, ms) && n <= |ms|
    ensures Alternates(Cuts(bs, ms, n), n)
  {
    if n > 0 {
      CutsAlternate(bs, ms, n - 1);
      CutsStep(bs, ms, n - 1);
      AddsAlternate(bs, ms[n - 1], Cuts(bs, ms, n - 1), n - 1, References(bs, ms, n - 1), EndOf(ms, n - 1),
                    Cuts(bs, ms, n), References(bs, ms, n));
    }
  }

  lemma {:induction false} AddsAlternate(bs: string, m: Match, parts: seq<Part>, n: nat, refs: seq<string>, end: int,
                                         parts': seq<Part>, refs': seq<string>)
    requires Adds(bs, m, parts, refs, end, parts', refs') && Alternates(parts, n)
    ensures Alternates(parts', n + 1)
  {
    assert forall i :: 0 <= i < |parts| ==> parts'[i] == parts[i];
  }

  /** The first part is always text; there is a second one exactly when the sheet's first reference is accepted, and
      then it is that reference. */
  lemma {:induction false} SentPartsShape(bs: string, ms: seq<Match>, accepted: string -> bool)
    requires Matches(bs, ms)
    ensures var parts := SentParts(bs, ms, accepted);
            && (parts != [] ==> parts[0].Literal?)
            && (|parts| >= 2 <==> ms != [] && accepted(ReferenceAt(bs, ms, 0)))
            && (|parts| >= 2 ==> parts[1].Fetch?)
  {
    CutsAlternate(bs, ms, FirstRejected(bs, ms, accepted, 0));
  }
}

/** Writing the parts in order while they are fetched in any order: the main loop, the writer goroutine behind an
    unbuffered channel, and fetch goroutines, all but the main loop in one error group with a limited number of
    slots. */
module OrderedWriter {
  import opened Types
  import opened Segments

  const LIMIT: nat := 5

  datatype Writer = Receiving | Holding(i: nat) | Exited

  /** `sent` parts have gone through the channel; `launched` says that the fetch of the next one has been started;
      `closed` that the channel is closed; `done` are the fetches whose channel is closed; `cancelled` that one of
      them or a write failed; `out` is what has been written. */
  datatype State = State(sent: nat, launched: bool, closed: bool, running: set<nat>, done: set<nat>, cancelled: bool,
                         writer: Writer, out: string)

  datatype Act =
    | Launch
    | Send
    | Close
    | FetchDone(i: nat)
    | FetchFails(i: nat)
    | Write
    | WriteFails
    | WriterExits
    | WriterCancelled

  const INIT: State := State(0, false, false, {}, {}, false, Receiving, "")

  function Slots(s: State): nat {
    |s.running| + if s.writer.Exited? then 0 else 1
  }

  /** The writer has a part whose text is there. */
  predicate CanWrite(parts: seq<Part>, s: State) {
    s.writer.Holding? && s.writer.i < |parts| && (parts[s.writer.i].Fetch? ==> s.writer.i in s.done)
  }

  predicate Enabled(parts: seq<Part>, limit: nat, s: State, a: Act) {
    match a
    case Launch => s.sent < |parts| && parts[s.sent].Fetch? && !s.launched && Slots(s) < limit
    case Send => s.sent < |parts| && (parts[s.sent].Fetch? ==> s.launched) && s.writer.Receiving?
    case Close => s.sent == |parts| && !s.closed
    case FetchDone(i) => i in s.running
    case FetchFails(i) => i in s.running
    case Write => CanWrite(parts, s)
    case WriteFails => CanWrite(parts, s)
    case WriterExits => s.closed && s.writer.Receiving?
    case WriterCancelled => s.cancelled && !s.writer.Exited?
  }

  /** What is written for a part: its text, or what fetching its url brought. */
  function Render(p: Part, fetched: string -> string): string {
    match p case Literal(text) => text case Fetch(url) => fetched(url)
  }

  function Next(parts: seq<Part>, fetched: string -> string, limit: nat, s: State, a: Act): State
    requires Enabled(parts, limit, s, a)
  {
    match a
    case Launch => s.(launched := true, running := s.running + {s.sent})
    case Send => s.(sent := s.sent + 1, launched := false, writer := Holding(s.sent))
    case Close => s.(closed := true)
    case FetchDone(i) => s.(running := s.running - {i}, done := s.done + {i})
    case FetchFails(i) => s.(running := s.running - {i}, done := s.done + {i}, cancelled := true)
    case Write => s.(writer := Receiving, out := s.out + Render(parts[s.writer.i], fetched))
    case WriteFails => s.(writer := Exited, cancelled := true)
    case WriterExits => s.(writer := Exited)
    case WriterCancelled => s.(writer := Exited)
  }

  predicate Finished(parts: seq<Part>, s: State) {
    s.sent == |parts| && s.closed && s.running == {} && s.writer.Exited?
  }

  /** The first `n` parts in source order. */
  function RenderFirst(parts: seq<Part>, fetched: string -> string, n: nat): string
    requires n <= |parts|
  {
    if n == 0 then "" else RenderFirst(parts, fetched, n - 1) + Render(parts[n - 1], fetched)
  }

  function Written(s: State): nat {
    if s.writer.Holding? && s.sent > 0 then s.sent - 1 else s.sent
  }

  /** Every fetch that was launched is running or done, and only such. */
  ghost predicate Fetches(parts: seq<Part>, s: State) {
    && s.sent <= |parts|
    && (s.launched ==> s.sent < |parts| && parts[s.sent].Fetch? && s.sent in s.running + s.done)
    && (forall i: nat :: i < s.sent && parts[i].Fetch? ==> i in s.running + s.done)
    && (forall i :: i in s.running + s.done ==> i < |parts| && i <= s.sent && parts[i].Fetch?)
  }

  /** Nothing fails before something was sent or launched. */
  ghost predicate Flags(parts: seq<Part>, s: State) {
    && (s.writer.Holding? ==> s.sent == s.writer.i + 1)
    && (s.cancelled ==> s.sent > 0 || (parts != [] && parts[0].Fetch?))
    && (s.closed ==> s.sent == |parts|)
    && (!s.cancelled && s.writer.Exited? ==> s.closed)
  }

  ghost predicate Inv(parts: seq<Part>, s: State) {
    Fetches(parts, s) && Flags(parts, s)
  }

  /** As long as nothing has failed, exactly the parts taken from the channel are written, in source order. */
  ghost predicate InOrder(parts: seq<Part>, fetched: string -> string, s: State) {
    s.sent <= |parts| && (!s.cancelled ==> s.out == RenderFirst(parts, fetched, Written(s)))
  }

  lemma StepFetches(parts: seq<Part>, fetched: string -> string, limit: nat, s: State, a: Act)
    requires Inv(parts, s) && Enabled(parts, limit, s, a)
    ensures Fetches(parts, Next(parts, fetched, limit, s, a))
  {
    if a.FetchDone? || a.FetchFails? {
      assert s.running - {a.i} + (s.done + {a.i}) == s.running + s.done;
    } else if a.Launch? {
      assert s.running + {s.sent} + s.done == s.running + s.done + {s.sent};
    }
  }

  lemma StepFlags(parts: seq<Part>, fetched: string -> string, limit: nat, s: State, a: Act)
    requires Inv(parts, s) && Enabled(parts, limit, s, a)
    ensures Flags(parts, Next(parts, fetched, limit, s, a))
  {
    assert a.FetchFails? ==> a.i in s.running + s.done;
  }

  lemma StepInOrder(parts: seq<Part>, fetched: string -> string, limit: nat, s: State, a: Act)
    requires Inv(parts, s) && InOrder(parts, fetched, s) && Enabled(parts, limit, s, a)
    ensures InOrder(parts, fetched, Next(parts, fetched, limit, s, a))
  {
  }

  lemma StepInv(parts: seq<Part>, fetched: string -> string, limit: nat, s: State, a: Act)
    requires Inv(parts, s) && InOrder(parts, fetched, s) && Enabled(parts, limit, s, a)
    ensures Inv(parts, Next(parts, fetched, limit, s, a)) && InOrder(parts, fetched, Next(parts, fetched, limit, s, a))
  {
    StepFetches(parts, fetched, limit, s, a);
    StepFlags(parts, fetched, limit, s, a);
    StepInOrder(parts, fetched, limit, s, a);
  }

  function Run(parts: seq<Part>, fetched: string -> string, limit: nat, s: State, acts: seq<Act>): Option<State>
    decreases acts
  {
    if acts == [] then Some(s)
    else if Enabled(parts, limit, s, acts[0]) then
      Run(parts, fetched, limit, Next(parts, fetched, limit, s, acts[0]), acts[1..])
    else None
  }

  lemma {:induction false} RunInv(parts: seq<Part>, fetched: string -> string, limit: nat, s: State, acts: seq<Act>)
    requires Inv(parts, s) && InOrder(parts, fetched, s) && Run(parts, fetched, limit, s, acts).Some?
    ensures Inv(parts, Run(parts, fetched, limit, s, acts).value)
             && InOrder(parts, fetched, Run(parts, fetched, limit, s, acts).value)
    decreases acts
  {
    if acts != [] {
      StepInv(parts, fetched, limit, s, acts[0]);
      RunInv(parts, fetched, limit, Next(parts, fetched, limit, s, acts[0]), acts[1..]);
    }
  }

  /** Ordered output: whatever order fetches finish in, what has been written is a prefix of the parts in source
      order as long as no fetch and no write has failed, and all of them at the end. */
  lemma OutputInSourceOrder(parts: seq<Part>, fetched: string -> string, limit: nat, acts: seq<Act>)
    requires Run(parts, fetched, limit, INIT, acts).Some? && !Run(parts, fetched, limit, INIT, acts).value.cancelled
    ensures var s := Run(parts, fetched, limit, INIT, acts).value;
            && s.sent <= |parts| && s.out == RenderFirst(parts, fetched, Written(s))
            && (Finished(parts, s) ==> s.out == RenderFirst(parts, fetched, |parts|))
  {
    RunInv(parts, fetched, limit, INIT, acts);
  }

  ghost predicate Stuck(parts: seq<Part>, limit: nat, s: State) {
    !Finished(parts, s) && forall a :: !Enabled(parts, limit, s, a)
  }

  /** With two slots or more, the only way to get stuck is that the writer has left because something failed while the
      main loop still has a part to send. */
  lemma StuckIff(parts: seq<Part>, limit: nat, s: State)
    requires Inv(parts, s) && limit >= 2
    ensures Stuck(parts, limit, s) <==>
            s.cancelled && s.writer.Exited? && s.running == {} && s.sent < |parts|
            && (parts[s.sent].Fetch? ==> s.launched)
  {
    if i :| i in s.running {
      assert Enabled(parts, limit, s, FetchDone(i));
    } else {
      assert s.running == {};
      assert Slots(s) <= 1;
      if s.cancelled && s.writer.Exited? && s.sent < |parts| && (parts[s.sent].Fetch? ==> s.launched) {
        assert forall a :: !Enabled(parts, limit, s, a);
      } else if !Finished(parts, s) {
        if s.writer.Holding? {
          assert Enabled(parts, limit, s, Write);
        } else if s.sent < |parts| && parts[s.sent].Fetch? && !s.launched {
          assert Enabled(parts, limit, s, Launch);
        } else if s.sent < |parts| {
          assert Enabled(parts, limit, s, Send);
        } else if !s.closed {
          assert Enabled(parts, limit, s, Close);
        } else {
          assert Enabled(parts, limit, s, WriterExits);
        }
      }
    }
  }

  /** No deadlock: with the source's five slots, a run in which no fetch and no write has failed is never stuck. */
  lemma NeverStuckWithoutFailure(parts: seq<Part>, fetched: string -> string, acts: seq<Act>)
    requires Run(parts, fetched, LIMIT, INIT, acts).Some? && !Run(parts, fetched, LIMIT, INIT, acts).value.cancelled
    ensures !Stuck(parts, LIMIT, Run(parts, fetched, LIMIT, INIT, acts).value)
  {
    RunInv(parts, fetched, LIMIT, INIT, acts);
    StuckIff(parts, LIMIT, Run(parts, fetched, LIMIT, INIT, acts).value);
  }

  /** How many steps are left at most. */
  function StepsLeft(parts: seq<Part>, s: State): int {
    5 * (|parts| - s.sent) + |s.running| + (if s.launched then 0 else 2) +
    (match s.writer case Holding(_) => 2 case Receiving => 1 case Exited => 0) + (if s.closed then 0 else 1)
  }

  /** Every schedule ends: each step lowers a bound that never becomes negative. */
  lemma StepsLeftDecreases(parts: seq<Part>, fetched: string -> string, limit: nat, s: State, a: Act)
    requires Inv(parts, s) && Enabled(parts, limit, s, a)
    ensures 0 <= StepsLeft(parts, Next(parts, fetched, limit, s, a)) < StepsLeft(parts, s)
  {
  }

  /** An infinite schedule in which nothing fails and something happens whenever something can. */
  ghost predicate ErrorFree(parts: seq<Part>, fetched: string -> string, states: nat -> State, acts: nat -> Act) {
    forall i: nat {:trigger acts(i)} ::
      && !acts(i).FetchFails? && !acts(i).WriteFails?
      && ((exists a :: Enabled(parts, LIMIT, states(i), a)) ==>
            Enabled(parts, LIMIT, states(i), acts(i))
            && states(i + 1) == Next(parts, fetched, LIMIT, states(i), acts(i)))
  }

  lemma MovesOn(parts: seq<Part>, fetched: string -> string, states: nat -> State, acts: nat -> Act, k: nat)
    requires ErrorFree(parts, fetched, states, acts) && !Finished(parts, states(k))
    requires Inv(parts, states(k)) && InOrder(parts, fetched, states(k)) && !states(k).cancelled
    ensures Inv(parts, states(k + 1)) && InOrder(parts, fetched, states(k + 1)) && !states(k + 1).cancelled
    ensures 0 <= StepsLeft(parts, states(k + 1)) < StepsLeft(parts, states(k))
  {
    StuckIff(parts, LIMIT, states(k));
    var a := acts(k);
    StepsLeftDecreases(parts, fetched, LIMIT, states(k), a);
    StepInv(parts, fetched, LIMIT, states(k), a);
  }

  lemma {:induction false} FinishesFrom(parts: seq<Part>, fetched: string -> string, states: nat -> State,
                            acts: nat -> Act, k: nat)
    requires ErrorFree(parts, fetched, states, acts)
    requires Inv(parts, states(k)) && InOrder(parts, fetched, states(k)) && !states(k).cancelled
    ensures exists i: nat :: && i >= k && Finished(parts, states(i))
                             && states(i).out == RenderFirst(parts, fetched, |parts|)
    decreases StepsLeft(parts, states(k))
  {
    if !Finished(parts, states(k)) {
      MovesOn(parts, fetched, states, acts, k);
      FinishesFrom(parts, fetched, states, acts, k + 1);
    }
  }

  /** Every error-free schedule ends with all parts written in source order. */
  lemma EveryScheduleFinishes(parts: seq<Part>, fetched: string -> string, states: nat -> State, acts: nat -> Act)
    requires states(0) == INIT && ErrorFree(parts, fetched, states, acts)
    ensures exists i: nat :: Finished(parts, states(i)) && states(i).out == RenderFirst(parts, fetched, |parts|)
  {
    FinishesFrom(parts, fetched, states, acts, 0);
  }

  // ---------------------------------------------------------------- what is written for a sheet

  /** The sheet from the end of match `i - 1` on, without its final byte, each reference with its parentheses replaced
      by what was fetched for it. */
  function Inlined(bs: string, ms: seq<Match>, fetched: string -> string, i: nat): string
    requires Matches(bs, ms) && bs != "" && !EndsInMatch(bs, ms) && i <= |ms|
    decreases |ms| - i
  {
    EndInside(bs, ms);
    if i == |ms| then bs[EndOf(ms, i)..|bs| - 1]
    else
      StartsBefore(bs, ms, i);
      bs[EndOf(ms, i)..ms[i].si - 1] + (fetched(ReferenceAt(bs, ms, i)) + Inlined(bs, ms, fetched, i + 1))
  }

  function Rendered(parts: seq<Part>, fetched: string -> string): string {
    RenderFirst(parts, fetched, |parts|)
  }

  lemma {:induction false} RenderFirstOfMore(parts: seq<Part>, p: Part, fetched: string -> string, n: nat)
    requires n <= |parts|
    ensures RenderFirst(parts + [p], fetched, n) == RenderFirst(parts, fetched, n)
  {
    if n > 0 {
      RenderFirstOfMore(parts, p, fetched, n - 1);
    }
  }

  lemma {:induction false} RenderMore(parts: seq<Part>, p: Part, fetched: string -> string)
    ensures Rendered(parts + [p], fetched) == Rendered(parts, fetched) + Render(p, fetched)
  {
    RenderFirstOfMore(parts, p, fetched, |parts|);
  }

  lemma {:induction false} RenderAdds(bs: string, m: Match, parts: seq<Part>, refs: seq<string>, end: int,
                                      parts': seq<Part>, refs': seq<string>, fetched: string -> string)
    requires Adds(bs, m, parts, refs, end, parts', refs')
    ensures Rendered(parts', fetched) == Rendered(parts, fetched) + bs[end..m.si - 1] + fetched(bs[m.si..m.ei])
  {
    RenderMore(parts, Literal(bs[end..m.si - 1]), fetched);
    RenderMore(parts + [Literal(bs[end..m.si - 1])], Fetch(bs[m.si..m.ei]), fetched);
  }

  lemma Reassociate(a: string, b: string, c: string, d: string)
    ensures a + (b + (c + d)) == a + b + c + d
  {
  }

  lemma {:induction false} OneInlined(bs: string, ms: seq<Match>, fetched: string -> string, n: nat)
    returns (text: string, inlined: string)
    requires Matches(bs, ms) && bs != "" && !EndsInMatch(bs, ms) && n < |ms|
    ensures Rendered(Cuts(bs, ms, n + 1), fetched) == Rendered(Cuts(bs, ms, n), fetched) + text + inlined
    ensures Inlined(bs, ms, fetched, n) == text + (inlined + Inlined(bs, ms, fetched, n + 1))
  {
    CutsStep(bs, ms, n);
    text, inlined := bs[EndOf(ms, n)..ms[n].si - 1], fetched(ReferenceAt(bs, ms, n));
    RenderAdds(bs, ms[n], Cuts(bs, ms, n), References(bs, ms, n), EndOf(ms, n), Cuts(bs, ms, n + 1),
               References(bs, ms, n + 1), fetched);
  }

  lemma {:induction false} CutsInlined(bs: string, ms: seq<Match>, fetched: string -> string, n: nat)
    returns (written: string)
    requires Matches(bs, ms) && bs != "" && !EndsInMatch(bs, ms) && n <= |ms|
    ensures written == Rendered(Cuts(bs, ms, n), fetched)
    ensures written + Inlined(bs, ms, fetched, n) == Inlined(bs, ms, fetched, 0)
  {
    written := Rendered(Cuts(bs, ms, n), fetched);
    if n == 0 {
      assert "" + Inlined(bs, ms, fetched, 0) == Inlined(bs, ms, fetched, 0);
    } else {
      var before := CutsInlined(bs, ms, fetched, n - 1);
      var text, inlined := OneInlined(bs, ms, fetched, n - 1);
      Reassociate(before, text, inlined, Inlined(bs, ms, fetched, n));
    }
  }

  /** All parts of a sheet, written one after the other, are the sheet with its references replaced. */
  lemma {:induction false} PartsInlined(bs: string, ms: seq<Match>, fetched: string -> string)
    requires Matches(bs, ms) && bs != "" && !EndsInMatch(bs, ms)
    ensures Rendered(AllParts(bs, ms), fetched) == Inlined(bs, ms, fetched, 0)
  {
    var written := CutsInlined(bs, ms, fetched, |ms|);
    EndInside(bs, ms);
    var (cuts, text) := (Cuts(bs, ms, |ms|), bs[EndOf(ms, |ms|)..|bs| - 1]);
    if EndOf(ms, |ms|) == |bs| - 1 {
      assert Rendered(cuts, fetched) + "" == Rendered(cuts, fetched);
    } else {
      RenderMore(cuts, Literal(text), fetched);
    }
  }

  function Wrap(url: string): string {
    "(" + url + ")"
  }

  lemma {:induction false} RenderWrapped(parts: seq<Part>, n: nat)
    requires n <= |parts|
    ensures RenderFirst(parts, Wrap, n) == RebuildFirst(parts, n)
  {
    if n > 0 {
      RenderWrapped(parts, n - 1);
    }
  }

  /** Fetching nothing but the reference itself, in its parentheses, leaves the sheet as it was without its final
      byte. */
  lemma InlinedIdentity(bs: string, ms: seq<Match>)
    requires Matches(bs, ms) && bs != "" && !EndsInMatch(bs, ms)
    ensures Inlined(bs, ms, Wrap, 0) == bs[..|bs| - 1]
  {
    PartsInlined(bs, ms, Wrap);
    RenderWrapped(AllParts(bs, ms), |AllParts(bs, ms)|);
    PartsReassemble(bs, ms);
  }

  /** What is written for a sheet: when every reference is accepted and the sheet neither is empty nor ends in one,
      every error-free schedule ends with the sheet, without its final byte, in which each reference is replaced by what
      was fetched for it. */
  lemma SheetWritten(bs: string, ms: seq<Match>, accepted: string -> bool, fetched: string -> string,
                     states: nat -> State, acts: nat -> Act)
    requires Matches(bs, ms) && AllAccepted(bs, ms, accepted) && bs != "" && !EndsInMatch(bs, ms)
    requires states(0) == INIT && ErrorFree(SentParts(bs, ms, accepted), fetched, states, acts)
    ensures exists i: nat :: && Finished(SentParts(bs, ms, accepted), states(i))
                             && states(i).out == Inlined(bs, ms, fetched, 0)
  {
    assert SentParts(bs, ms, accepted) == AllParts(bs, ms);
    EveryScheduleFinishes(AllParts(bs, ms), fetched, states, acts);
    PartsInlined(bs, ms, fetched);
  }

  // ---------------------------------------------------------------- when the program can hang

  /** Some schedule gets stuck; the flags say whether fetches and whether writes may fail in it. */
  ghost predicate CanHang(parts: seq<Part>, fetched: string -> string, fetchesFail: bool, writesFail: bool) {
    exists acts :: HangsAlong(parts, fetched, acts, fetchesFail, writesFail)
  }

  ghost predicate HangsAlong(parts: seq<Part>, fetched: string -> string, acts: seq<Act>, fetchesFail: bool,
                            writesFail: bool) {
    && Run(parts, fetched, LIMIT, INIT, acts).Some? && Stuck(parts, LIMIT, Run(parts, fetched, LIMIT, INIT, acts).value)
    && forall k :: 0 <= k < |acts| ==> (acts[k].FetchFails? ==> fetchesFail) && (acts[k].WriteFails? ==> writesFail)
  }

  lemma {:induction false} NotCancelled(parts: seq<Part>, fetched: string -> string, s: State, acts: seq<Act>)
    requires !s.cancelled && Run(parts, fetched, LIMIT, s, acts).Some?
    requires forall k :: 0 <= k < |acts| ==> !acts[k].FetchFails? && !acts[k].WriteFails?
    ensures !Run(parts, fetched, LIMIT, s, acts).value.cancelled
    decreases acts
  {
    if acts != [] {
      NotCancelled(parts, fetched, Next(parts, fetched, LIMIT, s, acts[0]), acts[1..]);
    }
  }

  /** Put one step in front of a schedule. */
  lemma First(parts: seq<Part>, fetched: string -> string, s: State, a: Act, rest: seq<Act>)
    requires Enabled(parts, LIMIT, s, a)
    ensures Run(parts, fetched, LIMIT, s, [a] + rest) ==
            Run(parts, fetched, LIMIT, Next(parts, fetched, LIMIT, s, a), rest)
  {
    assert ([a] + rest)[1..] == rest;
  }

  /** A fetch fails before its part is sent, the writer leaves, and the part is never taken. */
  lemma FailedFetchHangs(parts: seq<Part>, fetched: string -> string)
    requires |parts| >= 2 && parts[0].Literal? && parts[1].Fetch?
    ensures CanHang(parts, fetched, true, false)
  {
    var s1 := Next(parts, fetched, LIMIT, INIT, Send);
    var s2 := Next(parts, fetched, LIMIT, s1, Write);
    var s3 := Next(parts, fetched, LIMIT, s2, Launch);
    var s4 := Next(parts, fetched, LIMIT, s3, FetchFails(1));
    var s5 := Next(parts, fetched, LIMIT, s4, WriterCancelled);
    First(parts, fetched, s4, WriterCancelled, []);
    First(parts, fetched, s3, FetchFails(1), [WriterCancelled] + []);
    First(parts, fetched, s2, Launch, [FetchFails(1)] + ([WriterCancelled] + []));
    First(parts, fetched, s1, Write, [Launch] + ([FetchFails(1)] + ([WriterCancelled] + [])));
    First(parts, fetched, INIT, Send, [Write] + ([Launch] + ([FetchFails(1)] + ([WriterCancelled] + []))));
    var acts := [Send] + ([Write] + ([Launch] + ([FetchFails(1)] + ([WriterCancelled] + []))));
    assert Run(parts, fetched, LIMIT, INIT, acts) == Some(s5);
    RunInv(parts, fetched, LIMIT, INIT, acts);
    StuckIff(parts, LIMIT, s5);
    assert HangsAlong(parts, fetched, acts, true, false);
  }

  /** The first write fails, the writer leaves, and the next part is never taken, although every fetch succeeds. */
  lemma FailedWriteHangs(parts: seq<Part>, fetched: string -> string)
    requires |parts| >= 2 && parts[0].Literal? && parts[1].Fetch?
    ensures CanHang(parts, fetched, false, true)
  {
    var s1 := Next(parts, fetched, LIMIT, INIT, Send);
    var s2 := Next(parts, fetched, LIMIT, s1, WriteFails);
    var s3 := Next(parts, fetched, LIMIT, s2, Launch);
    var s4 := Next(parts, fetched, LIMIT, s3, FetchDone(1));
    First(parts, fetched, s3, FetchDone(1), []);
    First(parts, fetched, s2, Launch, [FetchDone(1)] + []);
    First(parts, fetched, s1, WriteFails, [Launch] + ([FetchDone(1)] + []));
    First(parts, fetched, INIT, Send, [WriteFails] + ([Launch] + ([FetchDone(1)] + [])));
    var acts := [Send] + ([WriteFails] + ([Launch] + ([FetchDone(1)] + [])));
    assert Run(parts, fetched, LIMIT, INIT, acts) == Some(s4);
    RunInv(parts, fetched, LIMIT, INIT, acts);
    StuckIff(parts, LIMIT, s4);
    assert HangsAlong(parts, fetched, acts, false, true);
  }

  /** A single text never hangs, whatever fails: the main loop has nothing left to send when the writer leaves. */
  lemma SingleTextNeverHangs(parts: seq<Part>, fetched: string -> string, acts: seq<Act>)
    requires |parts| <= 1 && (parts != [] ==> parts[0].Literal?) && Run(parts, fetched, LIMIT, INIT, acts).Some?
    ensures !Stuck(parts, LIMIT, Run(parts, fetched, LIMIT, INIT, acts).value)
  {
    RunInv(parts, fetched, LIMIT, INIT, acts);
    StuckIff(parts, LIMIT, Run(parts, fetched, LIMIT, INIT, acts).value);
  }

  /** The program can hang exactly on sheets whose first reference is accepted. A failing fetch alone is enough for
      that, and so is a failing write alone; when nothing fails it never hangs. */
  lemma HangsIff(bs: string, ms: seq<Match>, accepted: string -> bool, fetched: string -> string)
    requires Matches(bs, ms)
    ensures var (parts, hangs) := (SentParts(bs, ms, accepted), ms != [] && accepted(ReferenceAt(bs, ms, 0)));
            && (CanHang(parts, fetched, true, true) <==> hangs)
            && (CanHang(parts, fetched, true, false) <==> hangs)
            && (CanHang(parts, fetched, false, true) <==> hangs)
            && !CanHang(parts, fetched, false, false)
  {
    var parts := SentParts(bs, ms, accepted);
    SentPartsShape(bs, ms, accepted);
    if |parts| >= 2 {
      FailedFetchHangs(parts, fetched);
      FailedWriteHangs(parts, fetched);
      var acts :| HangsAlong(parts, fetched, acts, true, false);
      assert HangsAlong(parts, fetched, acts, true, true);
    } else {
      forall acts: seq<Act> | Run(parts, fetched, LIMIT, INIT, acts).Some?
        ensures !Stuck(parts, LIMIT, Run(parts, fetched, LIMIT, INIT, acts).value)
      {
        SingleTextNeverHangs(parts, fetched, acts);
      }
    }
    forall acts: seq<Act> | Run(parts, fetched, LIMIT, INIT, acts).Some? &&
                  forall k :: 0 <= k < |acts| ==> !acts[k].FetchFails? && !acts[k].WriteFails?
      ensures !Stuck(parts, LIMIT, Run(parts, fetched, LIMIT, INIT, acts).value)
    {
      NotCancelled(parts, fetched, INIT, acts);
      NeverStuckWithoutFailure(parts, fetched, acts);
    }
  }
}
