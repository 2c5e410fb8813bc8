/**
 * Removal of reasoning spans from a model reply: the component's `removeThinkTags`,
 * which replaces every match of the global, lazy pattern `<think>[\s\S]*?</think>`
 * with nothing and trims the result.
 *
 * `Strip` is the left-to-right scan that a global `replace` performs: at each index
 * it tries to match; on a match it skips to the end of the match, otherwise it keeps
 * one character and moves on. `Matches` lists the matches that scan finds (what
 * `matchAll` would report) and `IsMatchList` says declaratively what that list must be.
 */
module ThinkTags {
  import opened JsText

  const Open: string := "<think>"
  const Close: string := "</think>"

  /** The pattern can match at `i` with its closing tag starting at `j`. */
  predicate IsSpan(s: string, i: nat, j: nat) {
    OccursAt(s, Open, i) && i + |Open| <= j && OccursAt(s, Close, j)
  }

  /** Some `<think>` is followed, later on, by a `</think>`. */
  ghost predicate HasThinkPair(s: string) {
    exists i: nat, j: nat :: IsSpan(s, i, j)
  }

  /**
   * The end of the match starting at `i`, if there is one. The lazy `*?` makes the
   * match end at the nearest closing tag.
   */
  function SpanEnd(s: string, i: nat): (r: Option<nat>)
    ensures r.Some? ==> i + |Open| + |Close| <= r.value <= |s| && IsSpan(s, i, r.value - |Close|)
    ensures r.Some? ==> forall j :: IsSpan(s, i, j) ==> r.value - |Close| <= j
    ensures r.None? ==> forall j :: !IsSpan(s, i, j)
  {
    if OccursAt(s, Open, i) then
      match FindFrom(s, Close, i + |Open|)
      case Some(j) => Some(j + |Close|)
      case None => None
    else None
  }

  /** The global replacement by the empty string, from index `i` on. */
  function Strip(s: string, i: nat): (r: string)
    requires i <= |s|
    decreases |s| - i
    ensures |r| <= |s| - i
  {
    if i == |s| then ""
    else match SpanEnd(s, i)
      case Some(e) => Strip(s, e)
      case None => [s[i]] + Strip(s, i + 1)
  }

  /** `removeThinkTags`: every span removed in one pass, then `trim()`. */
  function RemoveThinkTags(content: string): (r: string)
    ensures IsTrimmed(r)
    ensures |r| <= |content|
  {
    Trim(Strip(content, 0))
  }

  /** A removed span: `s[start..end]`. */
  datatype Span = Span(start: nat, end: nat)

  /** The spans the scan from `i` removes, in order. */
  function Matches(s: string, i: nat): (ms: seq<Span>)
    requires i <= |s|
    decreases |s| - i
  {
    if i == |s| then []
    else match SpanEnd(s, i)
      case Some(e) => [Span(i, e)] + Matches(s, e)
      case None => Matches(s, i + 1)
  }

  /**
   * `spans` is the list of matches of a global search from `from`: no match starts
   * before the first span, the first span is the (lazy) match at its start, and
   * the rest is the list of matches from where it ends.
   */
  ghost predicate IsMatchList(s: string, from: nat, spans: seq<Span>)
    decreases |spans|
  {
    from <= |s| &&
    if spans == [] then
      forall p :: from <= p < |s| ==> SpanEnd(s, p).None?
    else
      from <= spans[0].start &&
      (forall p :: from <= p < spans[0].start ==> SpanEnd(s, p).None?) &&
      SpanEnd(s, spans[0].start) == Some(spans[0].end) &&
      IsMatchList(s, spans[0].end, spans[1..])
  }

  /** `s` from `from` on, with the listed spans cut out. */
  ghost function Without(s: string, from: nat, spans: seq<Span>): string
    requires IsMatchList(s, from, spans)
    decreases |spans|
  {
    if spans == [] then s[from..]
    else s[from..spans[0].start] + Without(s, spans[0].end, spans[1..])
  }

  /** Where nothing matches, the scan keeps one character and moves on. */
  lemma StepNoMatch(s: string, i: nat)
    requires i < |s| && SpanEnd(s, i).None?
    ensures Matches(s, i) == Matches(s, i + 1)
    ensures Strip(s, i) == [s[i]] + Strip(s, i + 1)
  {
  }

  /** Where a span starts, the scan drops it and goes on from its end. */
  lemma StepMatch(s: string, i: nat, e: nat)
    requires i < |s| && SpanEnd(s, i) == Some(e)
    ensures Matches(s, i) == [Span(i, e)] + Matches(s, e)
    ensures Strip(s, i) == Strip(s, e)
  {
  }

  /** Positions where nothing matches are skipped by the search. */
  lemma {:induction false} MatchesSkip(s: string, i: nat, k: nat)
    requires i <= k <= |s|
    requires forall p :: i <= p < k ==> SpanEnd(s, p).None?
    ensures Matches(s, i) == Matches(s, k)
    decreases k - i
  {
    if i < k {
      StepNoMatch(s, i);
      MatchesSkip(s, i + 1, k);
    }
  }

  /** Positions where nothing matches are kept by the scan. */
  lemma {:induction false} StripSkip(s: string, i: nat, k: nat)
    requires i <= k <= |s|
    requires forall p :: i <= p < k ==> SpanEnd(s, p).None?
    ensures Strip(s, i) == s[i..k] + Strip(s, k)
    decreases k - i
  {
    if i < k {
      StepNoMatch(s, i);
      StripSkip(s, i + 1, k);
      ConsSlice(s, i, k, Strip(s, k));
    }
  }

  lemma ConsSlice(s: string, i: nat, k: nat, t: string)
    requires i < k <= |s|
    ensures [s[i]] + (s[i + 1..k] + t) == s[i..k] + t
  {
    assert s[i..k] == [s[i]] + s[i + 1..k];
  }

  /** The spans the scan removes are exactly the leftmost, non-overlapping, lazy matches. */
  lemma {:induction false} MatchesAreMatchList(s: string, i: nat)
    requires i <= |s|
    ensures IsMatchList(s, i, Matches(s, i))
    decreases |s| - i
  {
    if i < |s| {
      match SpanEnd(s, i)
      case Some(e) =>
        MatchesAreMatchList(s, e);
      case None =>
        MatchesAreMatchList(s, i + 1);
        var ms := Matches(s, i + 1);
        if ms != [] {
          assert forall p :: i <= p < ms[0].start ==> SpanEnd(s, p).None? by {
            forall p | i <= p < ms[0].start ensures SpanEnd(s, p).None? {
              if p > i { assert i + 1 <= p; }
            }
          }
        }
    }
  }

  /** Only one list of spans satisfies `IsMatchList`. */
  lemma {:induction false} MatchListUnique(s: string, from: nat, spans: seq<Span>)
    requires IsMatchList(s, from, spans)
    ensures spans == Matches(s, from)
    decreases |spans|
  {
    if spans == [] {
      MatchesSkip(s, from, |s|);
    } else {
      MatchesSkip(s, from, spans[0].start);
      MatchListUnique(s, spans[0].end, spans[1..]);
    }
  }

  /** The scan keeps exactly what lies outside the matches. */
  lemma {:induction false} StripIsWithout(s: string, i: nat)
    requires i <= |s|
    ensures IsMatchList(s, i, Matches(s, i))
    ensures Strip(s, i) == Without(s, i, Matches(s, i))
    decreases |s| - i
  {
    MatchesAreMatchList(s, i);
    if i < |s| {
      var r := SpanEnd(s, i);
      if r.Some? {
        var e := r.value;
        StepMatch(s, i, e);
        StripIsWithout(s, e);
        WithoutDrop(s, i, e, Matches(s, e));
      } else {
        StepNoMatch(s, i);
        StripIsWithout(s, i + 1);
        WithoutKeep(s, i, Matches(s, i + 1));
      }
    }
  }

  lemma WithoutDrop(s: string, i: nat, e: nat, rest: seq<Span>)
    requires IsMatchList(s, i, [Span(i, e)] + rest) && IsMatchList(s, e, rest)
    ensures Without(s, i, [Span(i, e)] + rest) == Without(s, e, rest)
  {
    var spans := [Span(i, e)] + rest;
    assert spans[1..] == rest;
    assert s[i..i] == [];
  }

  lemma WithoutKeep(s: string, i: nat, ms: seq<Span>)
    requires i < |s|
    requires IsMatchList(s, i, ms) && IsMatchList(s, i + 1, ms)
    ensures Without(s, i, ms) == [s[i]] + Without(s, i + 1, ms)
  {
    if ms == [] {
      assert s[i..] == [s[i]] + s[i + 1..];
    } else {
      ConsSlice(s, i, ms[0].start, Without(s, ms[0].end, ms[1..]));
    }
  }

  /** Removing a span makes the text strictly shorter. */
  lemma {:induction false} StripShrinks(s: string, i: nat, p: nat)
    requires i <= p < |s| && SpanEnd(s, p).Some?
    ensures |Strip(s, i)| < |s| - i
    decreases |s| - i
  {
    if i < p {
      match SpanEnd(s, i)
      case Some(e) =>
      case None => StripShrinks(s, i + 1, p);
    }
  }

  /** The scan changes the text exactly when some match exists. */
  lemma StripUnchangedIff(s: string, i: nat)
    requires i <= |s|
    ensures Strip(s, i) == s[i..] <==> forall p :: i <= p < |s| ==> SpanEnd(s, p).None?
  {
    if forall p :: i <= p < |s| ==> SpanEnd(s, p).None? {
      StripSkip(s, i, |s|);
    } else {
      var p :| i <= p < |s| && SpanEnd(s, p).Some?;
      StripShrinks(s, i, p);
    }
  }

  /**
   * Text with no `<think>` followed later by `</think>` only gets trimmed, and
   * such a pair is the only reason for the reply to change beyond trimming.
   */
  lemma NoThinkPairOnlyTrims(s: string)
    ensures Strip(s, 0) == s <==> !HasThinkPair(s)
    ensures !HasThinkPair(s) ==> RemoveThinkTags(s) == Trim(s)
  {
    StripUnchangedIff(s, 0);
    if HasThinkPair(s) {
      var i: nat, j: nat :| IsSpan(s, i, j);
      assert SpanEnd(s, i).Some?;
    }
  }

  /** The scan restarted after the last closing tag keeps the rest verbatim. */
  lemma UnterminatedKept(s: string, p: nat)
    requires p <= |s|
    requires forall k :: p <= k ==> !OccursAt(s, Close, k)
    ensures Strip(s, p) == s[p..]
  {
    assert forall q :: p <= q < |s| ==> SpanEnd(s, q).None?;
    StripUnchangedIff(s, p);
  }

  /** Where no `</think>` ends after `p`, the scan's output ends with the text from `p` on, unchanged. */
  lemma {:induction false} TailKept(s: string, i: nat, p: nat)
    requires i <= p <= |s|
    requires forall k: nat :: p < k + |Close| ==> !OccursAt(s, Close, k)
    ensures EndsWith(Strip(s, i), s[p..])
    decreases p - i
  {
    if i == p {
      UnterminatedKept(s, p);
    } else {
      var r := SpanEnd(s, i);
      if r.Some? {
        var e := r.value;
        assert OccursAt(s, Close, e - |Close|);
        StepMatch(s, i, e);
        TailKept(s, e, p);
      } else {
        StepNoMatch(s, i);
        TailKept(s, i + 1, p);
        EndsWithPrepend([s[i]], Strip(s, i + 1), s[p..]);
      }
    }
  }

  /** No `</think>` overlaps a `<think>`. */
  lemma CloseNotOverlappingOpen(s: string, u: nat, k: nat)
    requires OccursAt(s, Open, u)
    requires u < k + |Close| && k < u + |Open|
    ensures !OccursAt(s, Close, k)
  {
    assert s[u] == Open[0] && s[u + 1] == Open[1];
    if k == u {
      MismatchAt(s, Close, k, 1);
    } else if k < u {
      assert forall d :: 1 <= d < |Close| ==> Close[d] != '<';
      MismatchAt(s, Close, k, u - k);
    } else {
      assert forall j :: 1 <= j < |Open| ==> Open[j] != '<';
      assert s[k] == Open[k - u];
      MismatchAt(s, Close, k, 0);
    }
  }

  /**
   * An unterminated `<think>` stays in the reply: when no `</think>` follows it, the
   * scan's output ends with the text from that tag on, and the cleaned reply ends
   * with that text trimmed, which still starts with `<think>`.
   */
  lemma UnterminatedOpenKept(s: string, u: nat)
    requires OccursAt(s, Open, u)
    requires forall k: nat :: u + |Open| <= k ==> !OccursAt(s, Close, k)
    ensures EndsWith(Strip(s, 0), s[u..])
    ensures EndsWith(RemoveThinkTags(s), Trim(s[u..]))
    ensures OccursAt(Trim(s[u..]), Open, 0)
  {
    NoCloseEndsAfterOpen(s, u);
    TailKept(s, 0, u);
    OpenTailTrimmed(Strip(s, 0), s[u..]);
  }

  lemma NoCloseEndsAfterOpen(s: string, u: nat)
    requires OccursAt(s, Open, u)
    requires forall k: nat :: u + |Open| <= k ==> !OccursAt(s, Close, k)
    ensures forall k: nat :: u < k + |Close| ==> !OccursAt(s, Close, k)
  {
    forall k: nat | u < k + |Close| ensures !OccursAt(s, Close, k) {
      if k < u + |Open| {
        CloseNotOverlappingOpen(s, u, k);
      }
    }
  }

  /** Trimming a text that ends with one starting with `<think>` keeps that tag. */
  lemma OpenTailTrimmed(x: string, t: string)
    requires EndsWith(x, t) && OccursAt(t, Open, 0)
    ensures EndsWith(Trim(x), Trim(t))
    ensures OccursAt(Trim(t), Open, 0)
  {
    assert t[..|Open|] == Open;
    assert t[0] == '<' && t[|Open| - 1] == '>';
    TrimKeepsTail(x, t);
    TrimKeepsHead(t, Open);
  }

  /** A removed span runs from a `<think>` to the nearest `</think>` after that tag. */
  predicate IsLazySpan(s: string, sp: Span) {
    sp.start + |Open| + |Close| <= sp.end <= |s| &&
    IsSpan(s, sp.start, sp.end - |Close|) &&
    forall j: nat :: IsSpan(s, sp.start, j) ==> sp.end - |Close| <= j
  }

  /** The spans of a match list are lazy, lie after `from` and do not overlap. */
  lemma {:induction false} MatchListSpans(s: string, from: nat, spans: seq<Span>)
    requires IsMatchList(s, from, spans)
    ensures forall k :: 0 <= k < |spans| ==> IsLazySpan(s, spans[k]) && from <= spans[k].start
    ensures forall k :: 0 < k < |spans| ==> spans[k - 1].end <= spans[k].start
    decreases |spans|
  {
    if spans != [] {
      var rest := spans[1..];
      MatchListSpans(s, spans[0].end, rest);
      SpansCons(s, from, spans[0], rest);
      assert spans == [spans[0]] + rest;
    }
  }

  lemma SpansCons(s: string, from: nat, head: Span, rest: seq<Span>)
    requires from <= head.start && IsLazySpan(s, head)
    requires forall k :: 0 <= k < |rest| ==> IsLazySpan(s, rest[k]) && head.end <= rest[k].start
    requires forall k :: 0 < k < |rest| ==> rest[k - 1].end <= rest[k].start
    ensures var spans := [head] + rest;
      (forall k :: 0 <= k < |spans| ==> IsLazySpan(s, spans[k]) && from <= spans[k].start) &&
      (forall k :: 0 < k < |spans| ==> spans[k - 1].end <= spans[k].start)
  {
  }

  /**
   * What `removeThinkTags` does, stated without the scan: the spans it removes are
   * the leftmost, non-overlapping, lazy matches in order, no match starts in the text
   * it keeps, and the result is the text outside those spans, trimmed.
   */
  lemma RemoveThinkTagsSpec(content: string)
    ensures var spans := Matches(content, 0);
      IsMatchList(content, 0, spans) &&
      (forall k :: 0 <= k < |spans| ==> IsLazySpan(content, spans[k])) &&
      (forall k :: 0 < k < |spans| ==> spans[k - 1].end <= spans[k].start) &&
      RemoveThinkTags(content) == Trim(Without(content, 0, spans))
  {
    StripIsWithout(content, 0);
    MatchListSpans(content, 0, Matches(content, 0));
  }

  /** Text where no `<think>` starts from `p` on is kept verbatim. */
  lemma NoOpenKept(s: string, p: nat)
    requires p <= |s|
    requires forall k :: p <= k ==> !OccursAt(s, Open, k)
    ensures Strip(s, p) == s[p..]
  {
    StripUnchangedIff(s, p);
  }

  lemma ExampleSingleSpan()
    ensures RemoveThinkTags("a<think>x</think>b") == "ab"
  {
    var s := "a<think>x</think>b";
    assert !OccursAt(s, Open, 0) by { assert s[0..7][0] == 'a'; }
    assert s[1..8] == Open;
    assert !OccursAt(s, Close, 8) by { assert s[8..16][0] == 'x'; }
    assert s[9..17] == Close;
    assert FindFrom(s, Close, 9) == Some(9);
    assert FindFrom(s, Close, 8) == Some(9);
    assert SpanEnd(s, 1) == Some(17);
    assert SpanEnd(s, 17) == None;
    assert Strip(s, 17) == "b";
    assert Strip(s, 0) == "ab";
    assert IsTrimmed("ab");
    assert "ab" == [] + "ab" + [];
    TrimUnique("ab", [], "ab", []);
  }

  /** An opening tag with no closing tag after it stays in the reply. */
  lemma ExampleUnterminated()
    ensures RemoveThinkTags("a<think>b") == "a<think>b"
  {
    var s := "a<think>b";
    MismatchAt(s, Close, 0, 0);
    MismatchAt(s, Close, 1, 1);
    UnterminatedKept(s, 0);
    assert s == [] + s + [];
    TrimUnique(s, [], s, []);
  }

  /**
   * Nested tags: the first span ends at the inner closing tag, so the outer one's remains.
   * (The text is "<think>a<think>b</think>c</think>".)
   */
  lemma ExampleNested()
    ensures RemoveThinkTags(Open + "a" + Open + "b" + Close + "c" + Close) == "c" + Close
  {
    var s := Open + "a" + Open + "b" + Close + "c" + Close;
    var r := "c" + Close;
    NestedHead(s);
    NestedTail(s);
    StepMatch(s, 0, 24);
    assert s[24..] == r;
    assert r == [] + r + [];
    TrimUnique(r, [], r, []);
  }

  lemma NestedHead(s: string)
    requires s == Open + "a" + Open + "b" + Close + "c" + Close
    ensures SpanEnd(s, 0) == Some(24)
  {
    assert s[0..7] == Open;
    assert s[16..24] == Close;
    assert FindFrom(s, Close, 16) == Some(16);
    NoCloseAt(s, 15, 0);
    NoCloseAt(s, 14, 0);
    NoCloseAt(s, 13, 0);
    NoCloseAt(s, 12, 0);
    NoCloseAt(s, 11, 0);
    NoCloseAt(s, 10, 0);
    NoCloseAt(s, 9, 0);
    NoCloseAt(s, 8, 1);
    NoCloseAt(s, 7, 0);
  }

  /** A mismatch at `x` lets the search for `</think>` go on from `x + 1`. */
  lemma NoCloseAt(s: string, x: nat, d: nat)
    requires d < |Close| && x + d < |s| && s[x + d] != Close[d]
    ensures FindFrom(s, Close, x) == FindFrom(s, Close, x + 1)
  {
    MismatchAt(s, Close, x, d);
    FindFromStep(s, Close, x);
  }

  lemma NestedTail(s: string)
    requires s == Open + "a" + Open + "b" + Close + "c" + Close
    ensures Strip(s, 24) == s[24..]
  {
    assert |s| == 33;
    MismatchAt(s, Open, 24, 0);
    MismatchAt(s, Open, 25, 1);
    MismatchAt(s, Open, 26, 0);
    NoOpenKept(s, 24);
  }

  /**
   * One pass only: removing a span can bring a `<think>` and a `</think>` together,
   * and the new pair stays in the result, so the function is not idempotent.
   * (The first text is "<thi<think></think>nk></think>".)
   */
  lemma ExampleSinglePass()
    ensures RemoveThinkTags("<thi" + Open + Close + "nk>" + Close) == Open + Close
    ensures RemoveThinkTags(Open + Close) == ""
  {
    SinglePassOnce();
    EmptyPairRemoved();
  }

  lemma SinglePassOnce()
    ensures RemoveThinkTags("<thi" + Open + Close + "nk>" + Close) == Open + Close
  {
    var r := Open + Close;
    SinglePassScan();
    assert r == [] + r + [];
    TrimUnique(r, [], r, []);
  }

  lemma EmptyPairRemoved()
    ensures RemoveThinkTags(Open + Close) == ""
  {
    EmptyPairScan();
    TrimUnique("", [], "", []);
  }

  lemma SinglePassScan()
    ensures Strip("<thi" + Open + Close + "nk>" + Close, 0) == Open + Close
  {
    var s := "<thi" + Open + Close + "nk>" + Close;
    SinglePassHead(s);
    SinglePassTail(s);
    assert s[0..4] + s[19..] == "<thi" + "nk>" + Close;
    assert "<thi" + "nk>" + Close == Open + Close;
  }

  lemma SinglePassHead(s: string)
    requires s == "<thi" + Open + Close + "nk>" + Close
    ensures Strip(s, 0) == s[0..4] + Strip(s, 19)
  {
    assert s[4] == '<' && s[1] == 't' && s[2] == 'h' && s[3] == 'i';
    MismatchAt(s, Open, 0, 4);
    MismatchAt(s, Open, 1, 0);
    MismatchAt(s, Open, 2, 0);
    MismatchAt(s, Open, 3, 0);
    StripSkip(s, 0, 4);
    assert s[4..11] == Open && s[11..19] == Close;
    FindFromIs(s, Close, 11, 11);
    assert SpanEnd(s, 4) == Some(19);
  }

  lemma SinglePassTail(s: string)
    requires s == "<thi" + Open + Close + "nk>" + Close
    ensures Strip(s, 19) == s[19..]
  {
    assert s[19] == 'n' && s[20] == 'k' && s[21] == '>' && s[22] == '<' && s[23] == '/';
    MismatchAt(s, Open, 19, 0);
    MismatchAt(s, Open, 20, 0);
    MismatchAt(s, Open, 21, 0);
    MismatchAt(s, Open, 22, 1);
    MismatchAt(s, Open, 23, 0);
    NoOpenKept(s, 19);
  }

  lemma EmptyPairScan()
    ensures Strip(Open + Close, 0) == ""
  {
    var r := Open + Close;
    assert r[0..7] == Open && r[7..15] == Close;
    FindFromIs(r, Close, 7, 7);
    assert SpanEnd(r, 0) == Some(15);
  }
}
