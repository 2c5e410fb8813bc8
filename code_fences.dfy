/**
 * Segmentation of a message into prose and fenced code: the part of the component's
 * `processMessageContent` that runs before rendering. The text is split with
 * `String.prototype.split` on the global pattern
 *
 *     ```(\w+)?\n([\s\S]+?)```
 *
 * which has two capture groups, so the result is the flat list
 * `[prose, lang, body, prose, lang, body, ..., prose]`: an element at an index
 * congruent to 2 modulo 3 is a code body, every other element is handed to the
 * markdown renderer. `lang` is `undefined` (here `None`) when the tag is absent.
 *
 * `FenceAt` is the pattern matched at one index, `SplitFrom` the split algorithm of
 * ECMAScript (try a match at each index, keep the text between matches and the
 * captures of each match), and `FenceMatches` the list of matches a global search
 * reports, with `IsFenceMatchList` its declarative characterisation.
 */
module CodeFences {
  import opened JsText

  const Fence: string := "```"

  /** One match of the pattern: the two captures and the index just past the closing fence. */
  datatype FenceMatch = FenceMatch(lang: Option<string>, body: string, end: nat) {
    /** How many characters the language group took (0 when it did not take part). */
    function LangLength(): nat {
      if lang.Some? then |lang.value| else 0
    }
  }

  /** The length of the run of word characters starting at `i`. */
  function WordRun(s: string, i: nat): (n: nat)
    requires i <= |s|
    decreases |s| - i
    ensures i + n <= |s|
    ensures forall k :: i <= k < i + n ==> IsWordChar(s[k])
    ensures i + n < |s| ==> !IsWordChar(s[i + n])
  {
    if i < |s| && IsWordChar(s[i]) then 1 + WordRun(s, i + 1) else 0
  }

  /**
   * The pattern can match at `q`, the language group taking `n` word characters
   * (none: the optional group is skipped, since `\w+` needs one), and the match
   * ending at `e`, just after a closing fence that leaves a body of at least one
   * character.
   */
  predicate IsFenceCandidate(s: string, q: nat, n: nat, e: nat) {
    OccursAt(s, Fence, q) &&
    q + 3 + n < |s| &&
    (forall k :: q + 3 <= k < q + 3 + n ==> IsWordChar(s[k])) &&
    s[q + 3 + n] == '\n' &&
    q + n + 8 <= e && OccursAt(s, Fence, e - 3)
  }

  /** `m` is what a match at `q` taking `m.LangLength()` tag characters and ending at `m.end` captures. */
  predicate IsMatchOf(s: string, q: nat, m: FenceMatch) {
    var n := m.LangLength();
    IsFenceCandidate(s, q, n, m.end) &&
    m.lang == (if n > 0 then Some(s[q + 3..q + 3 + n]) else None) &&
    m.body == s[q + 4 + n..m.end - 3]
  }

  /**
   * The pattern applied at index `q` (a sticky match). Of all candidates,
   * backtracking picks the longest language tag first (the group is greedy and
   * `\w+` too) and then the shortest body (`+?` is lazy); the next character must be
   * a newline, so only the whole run of word characters can serve as the tag.
   */
  function FenceAt(s: string, q: nat): (r: Option<FenceMatch>)
    ensures r.Some? ==> IsMatchOf(s, q, r.value)
    ensures r.Some? ==> forall n: nat, e: nat :: IsFenceCandidate(s, q, n, e) ==> n == r.value.LangLength() && r.value.end <= e
    ensures r.None? ==> forall n: nat, e: nat :: !IsFenceCandidate(s, q, n, e)
  {
    if !OccursAt(s, Fence, q) then None
    else
      var n := WordRun(s, q + 3);
      var nl := q + 3 + n;
      if nl == |s| || s[nl] != '\n' then
        TagIsWordRun(s, q, n);
        None
      else
        TagIsWordRun(s, q, n);
        match FindFrom(s, Fence, nl + 2)
        case None => None
        case Some(c) =>
          var m := FenceMatch(if n > 0 then Some(s[q + 3..nl]) else None, s[nl + 1..c], c + 3);
          assert m.LangLength() == n;
          Some(m)
  }

  /** Every candidate at `q` takes exactly the run of word characters after the fence as its tag. */
  lemma TagIsWordRun(s: string, q: nat, n: nat)
    requires q + 3 <= |s| && n == WordRun(s, q + 3)
    ensures forall n': nat, e: nat :: IsFenceCandidate(s, q, n', e) ==> n' == n
  {
  }

  /** The text an element of the split list stands for (`undefined` reads as empty). */
  function Text(o: Option<string>): string {
    if o.Some? then o.value else ""
  }

  /**
   * What the flat list says the message was: prose, then for each fence its
   * opening fence, tag, newline, body, closing fence and the prose after it.
   */
  function Join(parts: seq<Option<string>>): string
    requires |parts| % 3 == 1
    decreases |parts|
  {
    if |parts| == 1 then Text(parts[0])
    else Text(parts[0]) + Fence + Text(parts[1]) + "\n" + Text(parts[2]) + Fence + Join(parts[3..])
  }

  /** A language tag: one or more word characters. */
  predicate IsLangTag(t: string) {
    |t| > 0 && forall k :: 0 <= k < |t| ==> IsWordChar(t[k])
  }

  /** A body as the lazy group leaves it: not empty, and no closing fence begins inside it after its first character. */
  predicate IsCodeBody(b: string) {
    |b| > 0 && forall k :: 1 <= k < |b| ==> !OccursAt(b + Fence, Fence, k)
  }

  /** Prose at the positions 0 and 2 modulo 3 is always a string; tags and bodies have their shapes. */
  predicate WellFormed(parts: seq<Option<string>>) {
    forall i :: 0 <= i < |parts| ==>
      (i % 3 != 1 ==> parts[i].Some?) &&
      (i % 3 == 1 && parts[i].Some? ==> IsLangTag(parts[i].value)) &&
      (i % 3 == 2 ==> IsCodeBody(parts[i].value))
  }

  /** The text a match covers is the opening fence, tag, newline, body and closing fence. */
  lemma MatchText(s: string, q: nat, m: FenceMatch)
    requires IsMatchOf(s, q, m)
    ensures m.end <= |s|
    ensures s[q..m.end] == Fence + Text(m.lang) + "\n" + m.body + Fence
    ensures m.lang.Some? ==> IsLangTag(m.lang.value)
  {
    var n := m.LangLength();
    assert s[q..m.end] == s[q..q + 3] + s[q + 3..q + 3 + n] + [s[q + 3 + n]] + s[q + 4 + n..m.end - 3] + s[m.end - 3..m.end];
    if n > 0 {
      forall k | 0 <= k < n ensures IsWordChar(m.lang.value[k]) { assert m.lang.value[k] == s[q + 3 + k]; }
    } else {
      assert s[q + 3..q + 3 + n] == [];
    }
  }

  /** The body the match at `q` captures is a code body: the closing fence is the first one after its first character. */
  lemma MatchBody(s: string, q: nat, m: FenceMatch)
    requires IsMatchOf(s, q, m)
    requires forall n: nat, e: nat :: IsFenceCandidate(s, q, n, e) ==> m.end <= e
    ensures IsCodeBody(m.body)
  {
    var n := m.LangLength();
    var b := m.body;
    var start := q + 4 + n;
    assert b + Fence == s[start..m.end];
    forall k | 1 <= k < |b| ensures !OccursAt(b + Fence, Fence, k) {
      if OccursAt(b + Fence, Fence, k) {
        OccursInSlice(s, start, m.end, Fence, k);
        assert IsFenceCandidate(s, q, n, start + k + 3);
      }
    }
  }

  /** The split algorithm, the previous boundary at `p`, trying a match at `q`. */
  function SplitFrom(s: string, p: nat, q: nat): (parts: seq<Option<string>>)
    requires p <= q <= |s|
    decreases |s| - q
    ensures |parts| % 3 == 1
    ensures WellFormed(parts)
    ensures Join(parts) == s[p..]
  {
    if q == |s| then [Some(s[p..])]
    else match FenceAt(s, q)
      case None => SplitFrom(s, p, q + 1)
      case Some(m) =>
        MatchText(s, q, m);
        MatchBody(s, q, m);
        var rest := SplitFrom(s, m.end, m.end);
        SplitStep(s, p, q, m, rest);
        [Some(s[p..q]), m.lang, Some(m.body)] + rest
  }

  lemma SplitStep(s: string, p: nat, q: nat, m: FenceMatch, rest: seq<Option<string>>)
    requires p <= q < m.end <= |s|
    requires s[q..m.end] == Fence + Text(m.lang) + "\n" + m.body + Fence
    requires m.lang.Some? ==> IsLangTag(m.lang.value)
    requires IsCodeBody(m.body)
    requires |rest| % 3 == 1 && WellFormed(rest) && Join(rest) == s[m.end..]
    ensures var parts := [Some(s[p..q]), m.lang, Some(m.body)] + rest;
      |parts| % 3 == 1 && WellFormed(parts) && Join(parts) == s[p..]
  {
    var prose := s[p..q];
    JoinCons(prose, m.lang, m.body, rest);
    SliceThree(s, p, q, m.end);
    WellFormedCons(Some(prose), m.lang, m.body, rest);
  }

  lemma SliceThree(s: string, p: nat, q: nat, e: nat)
    requires p <= q <= e <= |s|
    ensures s[p..] == s[p..q] + s[q..e] + s[e..]
  {
  }

  lemma JoinCons(prose: string, lang: Option<string>, body: string, rest: seq<Option<string>>)
    requires |rest| % 3 == 1
    ensures var parts := [Some(prose), lang, Some(body)] + rest;
      |parts| % 3 == 1 && Join(parts) == prose + (Fence + Text(lang) + "\n" + body + Fence) + Join(rest)
  {
    var parts := [Some(prose), lang, Some(body)] + rest;
    assert parts[3..] == rest;
  }

  lemma WellFormedCons(prose: Option<string>, lang: Option<string>, body: string, rest: seq<Option<string>>)
    requires prose.Some? && (lang.Some? ==> IsLangTag(lang.value)) && IsCodeBody(body)
    requires WellFormed(rest)
    ensures WellFormed([prose, lang, Some(body)] + rest)
  {
    var parts := [prose, lang, Some(body)] + rest;
    forall i | 0 <= i < |parts|
      ensures (i % 3 != 1 ==> parts[i].Some?) &&
              (i % 3 == 1 && parts[i].Some? ==> IsLangTag(parts[i].value)) &&
              (i % 3 == 2 ==> IsCodeBody(parts[i].value))
    {
      if i >= 3 {
        var j := i - 3;
        assert parts[i] == rest[j];
        assert j % 3 == i % 3;
      }
    }
  }

  /** `content.split(codeRegex)`. */
  function SplitFences(content: string): (parts: seq<Option<string>>)
    ensures |parts| % 3 == 1
    ensures WellFormed(parts)
    ensures Join(parts) == content
  {
    SplitFrom(content, 0, 0)
  }

  /** A match found by the search, with the index where it starts. */
  datatype Located = Located(start: nat, m: FenceMatch)

  /** The matches a global search from `q` reports, in order. */
  function FenceMatches(s: string, q: nat): (ms: seq<Located>)
    requires q <= |s|
    decreases |s| - q
  {
    if q == |s| then []
    else match FenceAt(s, q)
      case None => FenceMatches(s, q + 1)
      case Some(m) => [Located(q, m)] + FenceMatches(s, m.end)
  }

  /**
   * `ms` is the list of matches of a global search from `from`: no match starts
   * before the first one, the first is the match at its start, and the rest is the
   * list of matches from its end.
   */
  ghost predicate IsFenceMatchList(s: string, from: nat, ms: seq<Located>)
    decreases |ms|
  {
    from <= |s| &&
    if ms == [] then
      forall x :: from <= x < |s| ==> FenceAt(s, x).None?
    else
      from <= ms[0].start &&
      (forall x :: from <= x < ms[0].start ==> FenceAt(s, x).None?) &&
      FenceAt(s, ms[0].start) == Some(ms[0].m) &&
      IsFenceMatchList(s, ms[0].m.end, ms[1..])
  }

  /** The flat list that splitting at the matches `ms` gives, the prose before the first starting at `p`. */
  ghost function Interleave(s: string, p: nat, ms: seq<Located>): seq<Option<string>>
    requires IsFenceMatchList(s, p, ms)
    decreases |ms|
  {
    if ms == [] then [Some(s[p..])]
    else
      MatchText(s, ms[0].start, ms[0].m);
      [Some(s[p..ms[0].start]), ms[0].m.lang, Some(ms[0].m.body)] + Interleave(s, ms[0].m.end, ms[1..])
  }

  lemma {:induction false} InterleaveLength(s: string, p: nat, ms: seq<Located>)
    requires IsFenceMatchList(s, p, ms)
    ensures |Interleave(s, p, ms)| == 1 + 3 * |ms|
    decreases |ms|
  {
    if ms != [] {
      InterleaveLength(s, ms[0].m.end, ms[1..]);
    }
  }

  /** The search from `q` finds the leftmost matches, provided nothing matched in `[p, q)`. */
  lemma {:induction false} FenceMatchesAreMatchList(s: string, p: nat, q: nat)
    requires p <= q <= |s|
    requires forall x :: p <= x < q ==> FenceAt(s, x).None?
    ensures IsFenceMatchList(s, p, FenceMatches(s, q))
    decreases |s| - q
  {
    if q < |s| {
      match FenceAt(s, q)
      case None =>
        FenceMatchesAreMatchList(s, p, q + 1);
      case Some(m) =>
        MatchText(s, q, m);
        FenceMatchesAreMatchList(s, m.end, m.end);
    }
  }

  /** Only one list satisfies `IsFenceMatchList`. */
  lemma {:induction false} FenceMatchListUnique(s: string, from: nat, ms: seq<Located>)
    requires IsFenceMatchList(s, from, ms)
    ensures ms == FenceMatches(s, from)
    decreases |ms|
  {
    var stop := if ms == [] then |s| else ms[0].start;
    SearchSkips(s, from, stop);
    if ms != [] {
      FenceMatchListUnique(s, ms[0].m.end, ms[1..]);
    }
  }

  lemma {:induction false} SearchSkips(s: string, q: nat, k: nat)
    requires q <= k <= |s|
    requires forall x :: q <= x < k ==> FenceAt(s, x).None?
    ensures FenceMatches(s, q) == FenceMatches(s, k)
    decreases k - q
  {
    if q < k {
      SearchSkips(s, q + 1, k);
    }
  }

  /** Splitting keeps the text between consecutive matches as prose and puts each match's captures between. */
  lemma {:induction false} SplitIsInterleave(s: string, p: nat, q: nat)
    requires p <= q <= |s|
    requires forall x :: p <= x < q ==> FenceAt(s, x).None?
    ensures IsFenceMatchList(s, p, FenceMatches(s, q))
    ensures SplitFrom(s, p, q) == Interleave(s, p, FenceMatches(s, q))
    decreases |s| - q
  {
    FenceMatchesAreMatchList(s, p, q);
    if q < |s| {
      var r := FenceAt(s, q);
      if r.Some? {
        var m := r.value;
        MatchText(s, q, m);
        SplitIsInterleave(s, m.end, m.end);
        InterleaveCons(s, p, Located(q, m), FenceMatches(s, m.end));
      } else {
        SplitIsInterleave(s, p, q + 1);
      }
    }
  }

  /** The first match of the list contributes its prose, tag and body. */
  lemma InterleaveCons(s: string, p: nat, l: Located, rest: seq<Located>)
    requires IsFenceMatchList(s, p, [l] + rest)
    ensures l.m.end <= |s| && p <= l.start
    ensures IsFenceMatchList(s, l.m.end, rest)
    ensures Interleave(s, p, [l] + rest) ==
      [Some(s[p..l.start]), l.m.lang, Some(l.m.body)] + Interleave(s, l.m.end, rest)
  {
    var ms := [l] + rest;
    assert ms[0] == l && ms[1..] == rest;
  }

  /** `k` fence matches give `1 + 3k` elements; with none the one element is the whole message, and conversely. */
  lemma SplitLength(content: string)
    ensures IsFenceMatchList(content, 0, FenceMatches(content, 0))
    ensures |SplitFences(content)| == 1 + 3 * |FenceMatches(content, 0)|
    ensures SplitFences(content) == Interleave(content, 0, FenceMatches(content, 0))
    ensures SplitFences(content) == [Some(content)] <==> forall x :: 0 <= x < |content| ==> FenceAt(content, x).None?
  {
    SplitIsInterleave(content, 0, 0);
    InterleaveLength(content, 0, FenceMatches(content, 0));
    if forall x :: 0 <= x < |content| ==> FenceAt(content, x).None? {
      SearchSkips(content, 0, |content|);
    }
  }

  /** What the renderer makes of one element of the split list. */
  datatype Block =
    | Markdown(source: Option<string>)
    | CodeBlock(code: string, copyText: string)

  /**
   * The segment list of `processMessageContent`: bodies trimmed into code
   * blocks whose copy button copies the text shown, everything else to markdown.
   */
  function ProcessMessageContent(content: string): (blocks: seq<Block>)
    ensures var parts := SplitFences(content);
      |blocks| == |parts| &&
      forall i :: 0 <= i < |blocks| ==>
        if i % 3 == 2 then blocks[i].CodeBlock? && blocks[i].copyText == blocks[i].code == Trim(parts[i].value)
        else blocks[i] == Markdown(parts[i])
  {
    var parts := SplitFences(content);
    seq(|parts|, i requires 0 <= i < |parts| =>
      if i % 3 == 2 then (var code := Trim(Text(parts[i])); CodeBlock(code, code)) else Markdown(parts[i]))
  }

  /** Code blocks are exactly the fence matches, in order, each showing and copying its trimmed body. */
  lemma CodeBlocksAreFences(content: string)
    ensures var blocks := ProcessMessageContent(content);
      var ms := FenceMatches(content, 0);
      |blocks| == 1 + 3 * |ms| &&
      (forall k :: 0 <= k < |ms| ==>
        blocks[3 * k + 2] == CodeBlock(Trim(ms[k].m.body), Trim(ms[k].m.body)) &&
        IsTrimmed(blocks[3 * k + 2].code)) &&
      (forall i :: 0 <= i < |blocks| && i % 3 != 2 ==> blocks[i].Markdown?)
  {
    var ms := FenceMatches(content, 0);
    var parts := SplitFences(content);
    var blocks := ProcessMessageContent(content);
    SplitLength(content);
    forall k | 0 <= k < |ms|
      ensures blocks[3 * k + 2] == CodeBlock(Trim(ms[k].m.body), Trim(ms[k].m.body))
      ensures IsTrimmed(blocks[3 * k + 2].code)
    {
      InterleaveAt(content, 0, ms, k);
      var i := 3 * k + 2;
      TripleIndex(k, 2);
      assert parts[i] == Some(ms[k].m.body);
    }
  }

  lemma {:induction false} InterleaveAt(s: string, p: nat, ms: seq<Located>, k: nat)
    requires IsFenceMatchList(s, p, ms)
    requires k < |ms|
    ensures |Interleave(s, p, ms)| == 1 + 3 * |ms|
    ensures Interleave(s, p, ms)[3 * k + 1] == ms[k].m.lang
    ensures Interleave(s, p, ms)[3 * k + 2] == Some(ms[k].m.body)
    decreases |ms|
  {
    InterleaveLength(s, p, ms);
    if k > 0 {
      var rest := Interleave(s, ms[0].m.end, ms[1..]);
      var head := [Some(s[p..ms[0].start]), ms[0].m.lang, Some(ms[0].m.body)];
      assert Interleave(s, p, ms) == head + rest;
      InterleaveAt(s, ms[0].m.end, ms[1..], k - 1);
      IndexAfterHead(head, rest, 3 * k + 1);
      IndexAfterHead(head, rest, 3 * k + 2);
    }
  }

  /** Index `3 * k + j` lies at position `j` of its triple. */
  lemma TripleIndex(k: nat, j: nat)
    requires j < 3
    ensures (3 * k + j) % 3 == j
  {
  }

  lemma IndexAfterHead<T>(head: seq<T>, rest: seq<T>, i: nat)
    requires |head| == 3 && 3 <= i < 3 + |rest|
    ensures (head + rest)[i] == rest[i - 3]
  {
  }

  /** Indices where nothing matches are passed over by the split. */
  lemma {:induction false} SplitSkips(s: string, p: nat, q: nat, k: nat)
    requires p <= q <= k <= |s|
    requires forall x :: q <= x < k ==> FenceAt(s, x).None?
    ensures SplitFrom(s, p, q) == SplitFrom(s, p, k)
    decreases k - q
  {
    if q < k {
      SplitSkips(s, p, q + 1, k);
    }
  }

  /** Where no backtick starts, the split passes over. */
  lemma NoFenceStarts(s: string, p: nat, q: nat, k: nat)
    requires p <= q <= k <= |s|
    requires forall x :: q <= x < k ==> s[x] != '`'
    ensures SplitFrom(s, p, q) == SplitFrom(s, p, k)
  {
    forall x | q <= x < k ensures FenceAt(s, x).None? {
      MismatchAt(s, Fence, x, 0);
    }
    SplitSkips(s, p, q, k);
  }

  /**
   * A message with one fence: prose, tag, body, prose; the code block shows and
   * copies the body without its trailing newline.
   * (The message is "pre ```js\ncode();\n``` post".)
   */
  lemma ExampleOneFence()
    ensures SplitFences("pre " + Fence + "js\ncode();\n" + Fence + " post") ==
      [Some("pre "), Some("js"), Some("code();\n"), Some(" post")]
    ensures ProcessMessageContent("pre " + Fence + "js\ncode();\n" + Fence + " post")[2] ==
      CodeBlock("code();", "code();")
  {
    var s := "pre " + Fence + "js\ncode();\n" + Fence + " post";
    OneFenceSplit(s);
    var body := "code();\n";
    assert body == [] + "code();" + "\n";
    assert IsTrimmed("code();");
    TrimUnique(body, [], "code();", "\n");
    TripleIndex(0, 2);
  }

  lemma OneFenceSplit(s: string)
    requires s == "pre " + Fence + "js\ncode();\n" + Fence + " post"
    ensures SplitFences(s) == [Some("pre "), Some("js"), Some("code();\n"), Some(" post")]
  {
    OneFenceHead(s);
    OneFenceMatch(s);
    OneFenceTail(s);
    assert s[0..4] == "pre " && s[21..] == " post";
  }

  lemma OneFenceHead(s: string)
    requires s == "pre " + Fence + "js\ncode();\n" + Fence + " post"
    ensures SplitFrom(s, 0, 0) == SplitFrom(s, 0, 4)
  {
    assert s[0] == 'p' && s[1] == 'r' && s[2] == 'e' && s[3] == ' ';
    NoFenceStarts(s, 0, 0, 4);
  }

  lemma OneFenceMatch(s: string)
    requires s == "pre " + Fence + "js\ncode();\n" + Fence + " post"
    ensures FenceAt(s, 4) == Some(FenceMatch(Some("js"), "code();\n", 21))
  {
    assert s[4..7] == Fence;
    assert s[7] == 'j' && s[8] == 's' && s[9] == '\n';
    assert WordRun(s, 9) == 0;
    assert WordRun(s, 7) == 2;
    assert s[11] == 'o' && s[12] == 'd' && s[13] == 'e' && s[14] == '(' && s[15] == ')' && s[16] == ';' && s[17] == '\n';
    forall x | 11 <= x < 18 ensures !OccursAt(s, Fence, x) {
      MismatchAt(s, Fence, x, 0);
    }
    assert s[18..21] == Fence;
    FindFromIs(s, Fence, 11, 18);
    assert s[7..9] == "js" && s[10..18] == "code();\n";
  }

  lemma OneFenceTail(s: string)
    requires s == "pre " + Fence + "js\ncode();\n" + Fence + " post"
    ensures SplitFrom(s, 21, 21) == [Some(s[21..])]
  {
    assert |s| == 26;
    assert s[21] == ' ' && s[22] == 'p' && s[23] == 'o';
    NoFenceStarts(s, 21, 21, 26);
  }
}
