/** `re.sub` and `re.finditer` for the patterns the pipeline uses, none of
    which matches the empty string. A pattern is given by `matchEnd`: the end
    of the match it makes when tried at a position, or that position itself
    when it does not match there. Both scan left to right and resume right
    after each match, as the `re` module does. */
module Scanning {
  import opened Text

  /** The text `s[start..end]` one match covers. */
  datatype Span = Span(start: nat, end: nat)

  /** `matchEnd` reports a match at `p`. */
  predicate MatchesAt(s: string, matchEnd: nat -> nat, p: nat)
  {
    p < matchEnd(p) <= |s|
  }

  /** `re.sub(pattern, repl, s[i..])`, where `repl` computes the text that
      replaces a match from where it lies. */
  function Sub(s: string, i: nat, matchEnd: nat -> nat, repl: Span -> string): string
    decreases |s| - i
  {
    if i >= |s| then []
    else if MatchesAt(s, matchEnd, i) then repl(Span(i, matchEnd(i))) + Sub(s, matchEnd(i), matchEnd, repl)
    else [s[i]] + Sub(s, i + 1, matchEnd, repl)
  }

  /** `re.finditer(pattern, s[i..])`: the spans of the matches, in order. */
  function FindAll(s: string, i: nat, matchEnd: nat -> nat): (r: seq<Span>)
    ensures forall k :: 0 <= k < |r| ==> i <= r[k].start < r[k].end <= |s| && r[k].end == matchEnd(r[k].start)
    ensures forall a, b :: 0 <= a < b < |r| ==> r[a].end <= r[b].start
    decreases |s| - i
  {
    if i >= |s| then []
    else if MatchesAt(s, matchEnd, i) then [Span(i, matchEnd(i))] + FindAll(s, matchEnd(i), matchEnd)
    else FindAll(s, i + 1, matchEnd)
  }

  /** No match is passed over: every position from `i` on where the pattern
      matches lies inside a span `re.finditer` yields (at its start, or
      inside an earlier match that the scan resumed after). */
  lemma {:induction false} FindAllCovers(s: string, i: nat, matchEnd: nat -> nat, p: nat)
    requires i <= p && MatchesAt(s, matchEnd, p)
    ensures exists k :: 0 <= k < |FindAll(s, i, matchEnd)| && FindAll(s, i, matchEnd)[k].start <= p < FindAll(s, i, matchEnd)[k].end
    decreases |s| - i
  {
    var r := FindAll(s, i, matchEnd);
    if MatchesAt(s, matchEnd, i) {
      if p < matchEnd(i) {
        assert r[0].start <= p < r[0].end;
      } else {
        FindAllCovers(s, matchEnd(i), matchEnd, p);
        var rest := FindAll(s, matchEnd(i), matchEnd);
        var k :| 0 <= k < |rest| && rest[k].start <= p < rest[k].end;
        assert r[k + 1] == rest[k];
      }
    } else {
      FindAllCovers(s, i + 1, matchEnd, p);
    }
  }

  lemma FindAllMatch(s: string, i: nat, matchEnd: nat -> nat, e: nat)
    requires i < e <= |s| && matchEnd(i) == e
    ensures FindAll(s, i, matchEnd) == [Span(i, e)] + FindAll(s, e, matchEnd)
  {
  }

  lemma FindAllSkip(s: string, i: nat, matchEnd: nat -> nat)
    requires i < |s| && !MatchesAt(s, matchEnd, i)
    ensures FindAll(s, i, matchEnd) == FindAll(s, i + 1, matchEnd)
  {
  }

  /** The text a substitution produces, built from the match spans: the
      text between matches as it was, each match replaced. */
  function Assemble(s: string, i: nat, spans: seq<Span>, repl: Span -> string): string
    requires i <= |s|
    requires forall k :: 0 <= k < |spans| ==> i <= spans[k].start <= spans[k].end <= |s|
    requires forall a, b :: 0 <= a < b < |spans| ==> spans[a].end <= spans[b].start
    decreases |spans|
  {
    if spans == [] then s[i..]
    else s[i..spans[0].start] + repl(spans[0]) + Assemble(s, spans[0].end, spans[1..], repl)
  }

  /** A substitution copies every character outside the matches unchanged
      and puts the replacement of each match in its place. */
  lemma {:induction false} SubAssembles(s: string, i: nat, matchEnd: nat -> nat, repl: Span -> string)
    requires i <= |s|
    ensures Sub(s, i, matchEnd, repl) == Assemble(s, i, FindAll(s, i, matchEnd), repl)
    decreases |s| - i
  {
    if i < |s| {
      if MatchesAt(s, matchEnd, i) {
        var e := matchEnd(i);
        SubAssembles(s, e, matchEnd, repl);
        var spans := FindAll(s, i, matchEnd);
        assert spans[0] == Span(i, e) && spans[1..] == FindAll(s, e, matchEnd);
        AssembleMatch(s, i, spans, repl);
      } else {
        SubAssembles(s, i + 1, matchEnd, repl);
        AssembleSkips(s, i, FindAll(s, i + 1, matchEnd), repl);
      }
    }
  }

  /** A match at the start is replaced. */
  lemma AssembleMatch(s: string, i: nat, spans: seq<Span>, repl: Span -> string)
    requires i <= |s| && spans != [] && spans[0].start == i
    requires forall k :: 0 <= k < |spans| ==> i <= spans[k].start <= spans[k].end <= |s|
    requires forall a, b :: 0 <= a < b < |spans| ==> spans[a].end <= spans[b].start
    ensures Assemble(s, i, spans, repl) == repl(spans[0]) + Assemble(s, spans[0].end, spans[1..], repl)
  {
    assert s[i..i] == [];
  }

  /** A character before the first match is copied. */
  lemma AssembleSkips(s: string, i: nat, spans: seq<Span>, repl: Span -> string)
    requires i < |s|
    requires forall k :: 0 <= k < |spans| ==> i + 1 <= spans[k].start <= spans[k].end <= |s|
    requires forall a, b :: 0 <= a < b < |spans| ==> spans[a].end <= spans[b].start
    ensures Assemble(s, i, spans, repl) == [s[i]] + Assemble(s, i + 1, spans, repl)
  {
    if spans == [] {
      assert s[i..] == [s[i]] + s[i + 1..];
    } else {
      assert s[i..spans[0].start] == [s[i]] + s[i + 1..spans[0].start];
    }
  }

  /** A substitution whose every replacement is the matched text itself
      leaves the text as it was. */
  lemma {:induction false} SubIdentity(s: string, i: nat, matchEnd: nat -> nat, repl: Span -> string)
    requires forall p :: i <= p && MatchesAt(s, matchEnd, p) ==> repl(Span(p, matchEnd(p))) == s[p..matchEnd(p)]
    ensures i <= |s| ==> Sub(s, i, matchEnd, repl) == s[i..]
    decreases |s| - i
  {
    if i < |s| {
      if MatchesAt(s, matchEnd, i) {
        SubIdentity(s, matchEnd(i), matchEnd, repl);
        assert s[i..] == s[i..matchEnd(i)] + s[matchEnd(i)..];
      } else {
        SubIdentity(s, i + 1, matchEnd, repl);
        assert s[i..] == [s[i]] + s[i + 1..];
      }
    }
  }

  /** `re.sub(pattern, repl, s[i..])` where `repl` may raise: the text, or
      the error of the leftmost match whose replacement raises. */
  function TrySub(s: string, i: nat, matchEnd: nat -> nat, repl: Span -> Result<string>): Result<string>
    decreases |s| - i
  {
    if i >= |s| then Ok([])
    else if MatchesAt(s, matchEnd, i) then
      match repl(Span(i, matchEnd(i)))
      case Failure(e) => Failure(e)
      case Ok(t) =>
        match TrySub(s, matchEnd(i), matchEnd, repl)
        case Failure(e) => Failure(e)
        case Ok(rest) => Ok(t + rest)
    else
      match TrySub(s, i + 1, matchEnd, repl)
      case Failure(e) => Failure(e)
      case Ok(rest) => Ok([s[i]] + rest)
  }

  /** The error of the first span, in order, whose replacement raises. */
  function FirstFailure(spans: seq<Span>, repl: Span -> Result<string>): (r: Option<string>)
    ensures r.None? <==> forall k :: 0 <= k < |spans| ==> repl(spans[k]).Ok?
    ensures r.Some? ==> exists k :: 0 <= k < |spans| && repl(spans[k]) == Failure(r.value)
  {
    if spans == [] then None
    else if repl(spans[0]).Failure? then Some(repl(spans[0]).error)
    else
      var rest := FirstFailure(spans[1..], repl);
      assert forall k :: 0 < k < |spans| ==> spans[k] == spans[1..][k - 1];
      rest
  }

  function OrEmpty(r: Result<string>): string
  {
    if r.Ok? then r.value else []
  }

  /** A substitution whose replacement may raise fails exactly when one of
      the matches' replacements does, with the leftmost such error, and is
      otherwise the plain substitution. */
  lemma {:induction false} TrySubAgrees(s: string, i: nat, matchEnd: nat -> nat, repl: Span -> Result<string>)
    ensures TrySub(s, i, matchEnd, repl) ==
      match FirstFailure(FindAll(s, i, matchEnd), repl)
      case Some(e) => Failure(e)
      case None => Ok(Sub(s, i, matchEnd, span => OrEmpty(repl(span))))
    decreases |s| - i
  {
    if i < |s| {
      if MatchesAt(s, matchEnd, i) {
        TrySubAgrees(s, matchEnd(i), matchEnd, repl);
        assert FindAll(s, i, matchEnd)[1..] == FindAll(s, matchEnd(i), matchEnd);
      } else {
        TrySubAgrees(s, i + 1, matchEnd, repl);
      }
    }
  }

  /** A fallible substitution whose every replacement is the matched text
      itself succeeds and leaves the text as it was. */
  lemma {:induction false} TrySubIdentity(s: string, i: nat, matchEnd: nat -> nat, repl: Span -> Result<string>)
    requires forall p :: i <= p && MatchesAt(s, matchEnd, p) ==> repl(Span(p, matchEnd(p))) == Ok(s[p..matchEnd(p)])
    ensures i <= |s| ==> TrySub(s, i, matchEnd, repl) == Ok(s[i..])
    decreases |s| - i
  {
    if i < |s| {
      if MatchesAt(s, matchEnd, i) {
        TrySubIdentity(s, matchEnd(i), matchEnd, repl);
        assert s[i..] == s[i..matchEnd(i)] + s[matchEnd(i)..];
      } else {
        TrySubIdentity(s, i + 1, matchEnd, repl);
        assert s[i..] == [s[i]] + s[i + 1..];
      }
    }
  }
}
