/** Document review: the static persona registry, persona selection, the paragraph splitter
    that anchors comments to line ranges, the `[PARAGRAPH n]` tag parser applied to each
    persona's reply, and the order in which comments are streamed. Each persona's reply is an
    input: `Some(text)` is the full streamed reply, `None` a call that raised. */
module ReviewService {
  import opened Wrappers
  import opened Text
  import opened Seqs

  datatype Tone = Critical | Supportive | Technical | Neutral

  /** A persona without its system prompt, which only reaches the model. */
  datatype Persona = Persona(
    id: string,
    name: string,
    description: string,
    tone: Tone,
    focusAreas: seq<string>,
    color: string)

  /** The registry in declaration order, which is also the order of the id-keyed dictionary. */
  const DefaultPersonas: seq<Persona> := [
    Persona("devils-advocate", "Devil's Advocate", "Challenges every assumption and plays contrarian",
            Critical, ["logic", "assumptions", "evidence"], "#ef4444"),
    Persona("supportive-editor", "Supportive Editor", "Encourages while suggesting improvements",
            Supportive, ["strengths", "potential", "encouragement"], "#22c55e"),
    Persona("technical-critic", "Technical Critic", "Focuses on structure, clarity, and precision",
            Technical, ["structure", "clarity", "precision", "terminology"], "#3b82f6"),
    Persona("casual-reader", "Casual Reader", "Represents a confused layperson perspective",
            Neutral, ["accessibility", "engagement", "confusion points"], "#eab308")
  ]

  function PersonaIds(ps: seq<Persona>): (r: seq<string>)
    ensures |r| == |ps| && forall k :: 0 <= k < |ps| ==> r[k] == ps[k].id
  {
    if ps == [] then [] else [ps[0].id] + PersonaIds(ps[1..])
  }

  function Lookup(ps: seq<Persona>, id: string): (r: Option<Persona>)
    ensures r.Some? <==> id in PersonaIds(ps)
    ensures r.Some? ==> r.value in ps && r.value.id == id
  {
    if ps == [] then None else if ps[0].id == id then Some(ps[0]) else Lookup(ps[1..], id)
  }

  /** `get_persona`: the persona with that id, `None` for an unknown id. */
  function GetPersona(id: string): (r: Option<Persona>)
    ensures r.Some? <==> id in PersonaIds(DefaultPersonas)
    ensures r.Some? ==> r.value in DefaultPersonas && r.value.id == id
  {
    Lookup(DefaultPersonas, id)
  }

  /** The ids of `ps` are pairwise distinct. */
  predicate DistinctIds(ps: seq<Persona>) {
    forall i, j :: 0 <= i < j < |ps| ==> ps[i].id != ps[j].id
  }

  /** `list_personas`: the four registered personas with pairwise distinct ids, each of which
      `get_persona` finds again. */
  function ListPersonas(): (r: seq<Persona>)
    ensures |r| == 4 && DistinctIds(r)
    ensures forall k :: 0 <= k < |r| ==> GetPersona(r[k].id) == Some(r[k])
  {
    LookupDistinct(DefaultPersonas);
    DefaultPersonas
  }

  lemma {:induction false} LookupDistinct(ps: seq<Persona>)
    requires DistinctIds(ps)
    ensures forall k :: 0 <= k < |ps| ==> Lookup(ps, ps[k].id) == Some(ps[k])
    decreases |ps|
  {
    if ps != [] {
      LookupDistinct(ps[1..]);
      forall k | 0 < k < |ps| ensures Lookup(ps, ps[k].id) == Some(ps[k]) {
        assert ps[1..][k - 1] == ps[k];
      }
    }
  }

  /** The personas of `registry` named by `ids`, in order, duplicates kept, unknown ids
      dropped: the comprehension `[personas[pid] for pid in ids if pid in personas]`. */
  function Known(registry: seq<Persona>, ids: seq<string>): (r: seq<Persona>)
    ensures |r| <= |ids|
    ensures forall k :: 0 <= k < |r| ==> Lookup(registry, r[k].id) == Some(r[k])
  {
    if ids == [] then []
    else
      match Lookup(registry, ids[0])
      case Some(p) => [p] + Known(registry, ids[1..])
      case None => Known(registry, ids[1..])
  }

  /** The persona selection at the top of `review_document` over a registry: `None` or an
      empty list stands for every registered id. */
  function Select(registry: seq<Persona>, personaIds: Option<seq<string>>): (r: seq<Persona>)
    ensures forall k :: 0 <= k < |r| ==> r[k] in registry && Lookup(registry, r[k].id) == Some(r[k])
    ensures personaIds.Some? && personaIds.value != [] ==> |r| <= |personaIds.value|
  {
    if personaIds.None? || personaIds.value == [] then Known(registry, PersonaIds(registry))
    else Known(registry, personaIds.value)
  }

  /** The selection over the registered personas: each selected persona is the one
      `get_persona` returns for its id, and no list selects all four, in order. */
  function SelectPersonas(personaIds: Option<seq<string>>): (r: seq<Persona>)
    ensures forall k :: 0 <= k < |r| ==> GetPersona(r[k].id) == Some(r[k])
    ensures personaIds.None? ==> r == ListPersonas()
  {
    assert ListPersonas() == DefaultPersonas;
    SelectAll(DefaultPersonas);
    Select(DefaultPersonas, personaIds)
  }

  lemma {:induction false} KnownOfIds(registry: seq<Persona>, ps: seq<Persona>)
    requires forall k :: 0 <= k < |ps| ==> Lookup(registry, ps[k].id) == Some(ps[k])
    ensures Known(registry, PersonaIds(ps)) == ps
    decreases |ps|
  {
    if ps != [] {
      KnownOfIds(registry, ps[1..]);
      assert PersonaIds(ps)[1..] == PersonaIds(ps[1..]);
    }
  }

  /** Selecting with no list, or an empty one, gives the whole registry in order (for any
      registry with distinct ids, the default one included). */
  lemma SelectAll(registry: seq<Persona>)
    requires DistinctIds(registry)
    ensures Select(registry, None) == registry
    ensures Select(registry, Some([])) == registry
  {
    LookupDistinct(registry);
    KnownOfIds(registry, registry);
  }

  /** A non-empty request is honoured literally: every registered id is selected exactly as
      often as it was requested, and an unknown id not at all. */
  lemma {:induction false} SelectCounts(registry: seq<Persona>, ids: seq<string>, id: string)
    ensures multiset(PersonaIds(Known(registry, ids)))[id] ==
            if Lookup(registry, id).Some? then multiset(ids)[id] else 0
    decreases |ids|
  {
    if ids != [] {
      SelectCounts(registry, ids[1..], id);
      HeadTail(ids);
      var rest := PersonaIds(Known(registry, ids[1..]));
      match Lookup(registry, ids[0])
      case Some(p) =>
        assert PersonaIds(Known(registry, ids)) == [p.id] + rest;
      case None =>
        assert PersonaIds(Known(registry, ids)) == rest;
    }
  }

  /** Selection keeps the request's order: the selected ids are a subsequence of the request. */
  lemma {:induction false} SelectKeepsOrder(registry: seq<Persona>, ids: seq<string>)
    ensures IsSubsequence(PersonaIds(Known(registry, ids)), ids)
    decreases |ids|
  {
    if ids != [] {
      SelectKeepsOrder(registry, ids[1..]);
      match Lookup(registry, ids[0])
      case Some(p) =>
        assert PersonaIds(Known(registry, ids)) == [p.id] + PersonaIds(Known(registry, ids[1..]));
      case None =>
    }
  }

  // ---------------------------------------------------------------------------------------
  // Paragraphs

  /** One paragraph of the document: its lines joined with newlines, its first and last
      line (0-based) and its position. */
  datatype Paragraph = Paragraph(text: string, startLine: int, endLine: int, index: int)

  /** A line that `line.strip()` empties, that is, one made of whitespace only. */
  predicate Blank(line: string) {
    AllSpace(line)
  }

  /** Lines `s..e` form a maximal run of non-blank lines. */
  predicate IsRun(lines: seq<string>, s: int, e: int) {
    0 <= s <= e < |lines| &&
    (forall i :: s <= i <= e ==> !Blank(lines[i])) &&
    (s == 0 || Blank(lines[s - 1])) &&
    (e == |lines| - 1 || Blank(lines[e + 1]))
  }

  /** Every line in `a..b-1` is blank. */
  predicate BlankBetween(lines: seq<string>, a: int, b: int) {
    forall j :: a <= j < b && 0 <= j < |lines| ==> Blank(lines[j])
  }

  /** The paragraph the splitter builds for the run `s..e`. */
  function ParagraphOf(lines: seq<string>, s: int, e: int, index: int): Paragraph
    requires 0 <= s <= e < |lines|
  {
    Paragraph(Join(lines[s..e + 1], "\n"), s, e, index)
  }

  /** Each of `paras` is the paragraph of a maximal run ending before line `pos`, numbered by
      its position. */
  predicate Runs(paras: seq<Paragraph>, lines: seq<string>, pos: int) {
    forall k :: 0 <= k < |paras| ==>
      IsRun(lines, paras[k].startLine, paras[k].endLine) && paras[k].endLine < pos &&
      paras[k] == ParagraphOf(lines, paras[k].startLine, paras[k].endLine, k)
  }

  /** Consecutive paragraphs are apart and only blank lines lie between them. */
  predicate Gaps(paras: seq<Paragraph>, lines: seq<string>) {
    forall k :: 0 <= k < |paras| - 1 ==> Apart(paras, lines, k)
  }

  /** Paragraphs `k` and `k + 1` are apart and only blank lines lie between them. */
  predicate Apart(paras: seq<Paragraph>, lines: seq<string>, k: int)
    requires 0 <= k < |paras| - 1
  {
    paras[k].endLine + 1 < paras[k + 1].startLine &&
    BlankBetween(lines, paras[k].endLine + 1, paras[k + 1].startLine)
  }

  /** The lines before the first paragraph, and those after the last one up to `pos`, are blank. */
  predicate Edges(paras: seq<Paragraph>, lines: seq<string>, pos: int) {
    BlankBetween(lines, 0, if paras == [] then pos else paras[0].startLine) &&
    (paras != [] ==> BlankBetween(lines, paras[|paras| - 1].endLine + 1, pos))
  }

  /** `paras` lists, in order and numbered by position, maximal runs of non-blank lines that
      end before line `pos`, and every other line before `pos` is blank. */
  predicate Listed(paras: seq<Paragraph>, lines: seq<string>, pos: int) {
    Runs(paras, lines, pos) && Gaps(paras, lines) && Edges(paras, lines, pos)
  }

  /** `paras` lists, in order and numbered by position, the maximal runs of non-blank lines,
      each with its lines joined by newlines, and every line outside them is blank. */
  predicate IsParagraphing(paras: seq<Paragraph>, lines: seq<string>) {
    Listed(paras, lines, |lines|)
  }

  /** Closing the run `s..e` extends the listing up to line `e + 1`. */
  lemma Close(paras: seq<Paragraph>, lines: seq<string>, s: int, e: int, p: Paragraph)
    requires Listed(paras, lines, s) && IsRun(lines, s, e) && p == ParagraphOf(lines, s, e, |paras|)
    requires paras != [] ==> paras[|paras| - 1].endLine + 1 < s
    ensures Listed(paras + [p], lines, e + 1)
  {
    CloseRuns(paras, lines, s, e);
    CloseGaps(paras, lines, s, e);
    var ps := paras + [p];
    assert ps[0] == if paras == [] then p else paras[0];
  }

  lemma CloseRuns(paras: seq<Paragraph>, lines: seq<string>, s: int, e: int)
    requires Runs(paras, lines, s) && IsRun(lines, s, e)
    ensures Runs(paras + [ParagraphOf(lines, s, e, |paras|)], lines, e + 1)
  {
    var ps := paras + [ParagraphOf(lines, s, e, |paras|)];
    forall k | 0 <= k < |ps|
      ensures IsRun(lines, ps[k].startLine, ps[k].endLine) && ps[k].endLine < e + 1
      ensures ps[k] == ParagraphOf(lines, ps[k].startLine, ps[k].endLine, k)
    {
      if k < |paras| {
        assert ps[k] == paras[k];
      }
    }
  }

  lemma CloseGaps(paras: seq<Paragraph>, lines: seq<string>, s: int, e: int)
    requires Gaps(paras, lines) && Edges(paras, lines, s) && 0 <= s <= e < |lines|
    requires paras != [] ==> paras[|paras| - 1].endLine + 1 < s
    ensures Gaps(paras + [ParagraphOf(lines, s, e, |paras|)], lines)
  {
    var ps := paras + [ParagraphOf(lines, s, e, |paras|)];
    forall k | 0 <= k < |ps| - 1 ensures Apart(ps, lines, k) {
      assert ps[k] == paras[k];
      if k + 1 < |paras| {
        assert Apart(paras, lines, k) && ps[k + 1] == paras[k + 1];
      }
    }
  }

  /** A blank line extends the listing by one line. */
  lemma SkipBlank(paras: seq<Paragraph>, lines: seq<string>, pos: int)
    requires Listed(paras, lines, pos) && 0 <= pos < |lines| && Blank(lines[pos])
    ensures Listed(paras, lines, pos + 1)
  {
  }

  /** Lines `start..i-1` are non-blank and the line before them, if any, is blank: the run
      being collected. */
  predicate Open(lines: seq<string>, start: int, i: int) {
    0 <= start < i <= |lines| &&
    (forall j :: start <= j < i ==> !Blank(lines[j])) &&
    (start == 0 || Blank(lines[start - 1]))
  }

  /** A run that a blank line or the end of the document closes is listed as one paragraph. */
  lemma Flush(paras: seq<Paragraph>, lines: seq<string>, current: seq<string>, start: int, i: int)
    requires Listed(paras, lines, start) && Open(lines, start, i) && current == lines[start..i]
    requires paras != [] ==> paras[|paras| - 1].endLine + 1 < start
    requires i == |lines| || Blank(lines[i])
    ensures Listed(paras + [Paragraph(Join(current, "\n"), start, i - 1, |paras|)], lines, i)
  {
    OpenRun(lines, current, start, i, |paras|);
    Close(paras, lines, start, i - 1, Paragraph(Join(current, "\n"), start, i - 1, |paras|));
  }

  /** The open run `start..i-1`, closed by a blank line or the end, is a maximal run, and its
      lines joined make the paragraph the splitter builds for it, whatever its number `n`. */
  lemma OpenRun(lines: seq<string>, current: seq<string>, start: int, i: int, n: int)
    requires Open(lines, start, i) && current == lines[start..i]
    requires i == |lines| || Blank(lines[i])
    ensures IsRun(lines, start, i - 1)
    ensures Paragraph(Join(current, "\n"), start, i - 1, n) == ParagraphOf(lines, start, i - 1, n)
  {
    assert lines[start..i - 1 + 1] == current;
  }

  /** `_parse_document_structure`: split on newlines and collect the runs of non-blank lines. */
  method ParseDocumentStructure(content: string) returns (paras: seq<Paragraph>)
    ensures IsParagraphing(paras, Split(content, '\n'))
  {
    paras := ParseLines(Split(content, '\n'));
  }

  /** The loop invariant of `_parse_document_structure` before line `i`: the paragraphs listed
      so far, and the run of non-blank lines being collected in `current`, which begins at
      `start`. */
  predicate Scanning(lines: seq<string>, i: int, paras: seq<Paragraph>, current: seq<string>, start: int) {
    0 <= i <= |lines| &&
    (current != [] ==> Open(lines, start, i) && current == lines[start..i]) &&
    (current == [] ==> i == 0 || Blank(lines[i - 1])) &&
    Listed(paras, lines, if current != [] then start else i) &&
    (paras != [] ==> paras[|paras| - 1].endLine + 1 < if current != [] then start else i)
  }

  lemma ScanClose(lines: seq<string>, i: int, paras: seq<Paragraph>, current: seq<string>, start: int)
    requires Scanning(lines, i, paras, current, start) && i < |lines| && Blank(lines[i]) && current != []
    ensures Scanning(lines, i + 1, paras + [Paragraph(Join(current, "\n"), start, i - 1, |paras|)], [], i + 1)
  {
    Flush(paras, lines, current, start, i);
    SkipBlank(paras + [Paragraph(Join(current, "\n"), start, i - 1, |paras|)], lines, i);
  }

  lemma ScanBlank(lines: seq<string>, i: int, paras: seq<Paragraph>, start: int)
    requires Scanning(lines, i, paras, [], start) && i < |lines| && Blank(lines[i])
    ensures Scanning(lines, i + 1, paras, [], start)
  {
    SkipBlank(paras, lines, i);
  }

  lemma ScanLine(lines: seq<string>, i: int, paras: seq<Paragraph>, current: seq<string>, start: int)
    requires Scanning(lines, i, paras, current, start) && i < |lines| && !Blank(lines[i])
    ensures var s := if current == [] then i else start;
      Scanning(lines, i + 1, paras, current + [lines[i]], s)
  {
    if current != [] {
      assert lines[start..i + 1] == lines[start..i] + [lines[i]];
    }
  }

  /** After the last line with no run being collected, every paragraph is listed. */
  lemma ScanDone(lines: seq<string>, paras: seq<Paragraph>, start: int)
    requires Scanning(lines, |lines|, paras, [], start)
    ensures IsParagraphing(paras, lines)
  {
  }

  /** After the last line, the run still being collected is the last paragraph. */
  lemma ScanEnd(lines: seq<string>, paras: seq<Paragraph>, current: seq<string>, start: int)
    requires Scanning(lines, |lines|, paras, current, start) && current != []
    ensures IsParagraphing(paras + [Paragraph(Join(current, "\n"), start, |lines| - 1, |paras|)], lines)
  {
    assert Listed(paras, lines, start) && Open(lines, start, |lines|) && current == lines[start..|lines|];
    Flush(paras, lines, current, start, |lines|);
  }

  /** After the last line: the run still being collected, if any, is flushed as the last
      paragraph, and the paragraphing is complete. */
  lemma ScanFinish(lines: seq<string>, paras: seq<Paragraph>, current: seq<string>, start: int,
                   paras': seq<Paragraph>)
    requires Scanning(lines, |lines|, paras, current, start)
    requires paras' == if current != [] then paras + [Paragraph(Join(current, "\n"), start, |lines| - 1, |paras|)] else paras
    ensures IsParagraphing(paras', lines)
  {
    if current != [] {
      ScanEnd(lines, paras, current, start);
    } else {
      ScanDone(lines, paras, start);
    }
  }

  /** One turn of the loop of `_parse_document_structure` at line `i`: a blank line closes
      the run being collected, a non-blank one joins it (starting it when there is none). */
  predicate Stepped(lines: seq<string>, i: int, paras: seq<Paragraph>, current: seq<string>, start: int,
                    paras': seq<Paragraph>, current': seq<string>, start': int)
    requires 0 <= i < |lines|
  {
    if Blank(lines[i]) && current != [] then
      paras' == paras + [Paragraph(Join(current, "\n"), start, i - 1, |paras|)] && current' == [] && start' == i + 1
    else if !Blank(lines[i]) then
      paras' == paras && current' == current + [lines[i]] && start' == (if current == [] then i else start)
    else
      paras' == paras && current' == current && start' == start
  }

  lemma ScanStep(lines: seq<string>, i: int, paras: seq<Paragraph>, current: seq<string>, start: int,
                 paras': seq<Paragraph>, current': seq<string>, start': int)
    requires Scanning(lines, i, paras, current, start) && i < |lines|
    requires Stepped(lines, i, paras, current, start, paras', current', start')
    ensures Scanning(lines, i + 1, paras', current', start')
  {
    if Blank(lines[i]) && current != [] {
      ScanClose(lines, i, paras, current, start);
    } else if !Blank(lines[i]) {
      ScanLine(lines, i, paras, current, start);
    } else {
      ScanBlank(lines, i, paras, start);
    }
  }

  /** The loop of `_parse_document_structure` over the lines of the document. */
  method ParseLines(lines: seq<string>) returns (paras: seq<Paragraph>)
    ensures IsParagraphing(paras, lines)
  {
    paras := [];
    var current: seq<string> := [];
    var start := 0;
    for i := 0 to |lines|
      // kept whole (compared with `true`) rather than split into its many conjuncts
      invariant Scanning(lines, i, paras, current, start) == true
    {
      var line := lines[i];
      var blank := Strip(line) == [];
      assert blank == Blank(lines[i]);
      ghost var paras0, current0, start0 := paras, current, start;
      if blank && current != [] {
        paras := paras + [Paragraph(Join(current, "\n"), start, i - 1, |paras|)];
        current := [];
        start := i + 1;
      } else if !blank {
        if current == [] {
          start := i;
        }
        current := current + [line];
      }
      ScanStep(lines, i, paras0, current0, start0, paras, current, start);
    }
    ghost var paras0 := paras;
    if current != [] {
      paras := paras + [Paragraph(Join(current, "\n"), start, |lines| - 1, |paras|)];
    }
    ScanFinish(lines, paras0, current, start, paras);
  }

  /** The lines outside every paragraph are blank. */
  lemma {:induction false} OutsideIsBlank(paras: seq<Paragraph>, lines: seq<string>, j: int)
    requires IsParagraphing(paras, lines) && 0 <= j < |lines|
    requires forall k :: 0 <= k < |paras| ==> !(paras[k].startLine <= j <= paras[k].endLine)
    ensures Blank(lines[j])
  {
    if paras != [] && paras[0].startLine <= j {
      OutsideFrom(paras, lines, j, 0);
    }
  }

  lemma {:induction false} OutsideFrom(paras: seq<Paragraph>, lines: seq<string>, j: int, k: int)
    requires Gaps(paras, lines) && Edges(paras, lines, |lines|) && 0 <= j < |lines| && 0 <= k < |paras|
    requires forall k :: 0 <= k < |paras| ==> !(paras[k].startLine <= j <= paras[k].endLine)
    requires paras[k].startLine <= j
    ensures Blank(lines[j])
    decreases |paras| - k
  {
    if k + 1 < |paras| {
      assert Apart(paras, lines, k);
      if paras[k + 1].startLine <= j {
        OutsideFrom(paras, lines, j, k + 1);
      }
    }
  }

  /** Every non-blank line lies in exactly one paragraph. */
  lemma Covered(paras: seq<Paragraph>, lines: seq<string>, j: int)
    requires IsParagraphing(paras, lines) && 0 <= j < |lines| && !Blank(lines[j])
    ensures exists k :: 0 <= k < |paras| && paras[k].startLine <= j <= paras[k].endLine
    ensures forall k1, k2 :: 0 <= k1 < k2 < |paras| ==>
      !(paras[k1].startLine <= j <= paras[k1].endLine && paras[k2].startLine <= j <= paras[k2].endLine)
  {
    if forall k :: 0 <= k < |paras| ==> !(paras[k].startLine <= j <= paras[k].endLine) {
      OutsideIsBlank(paras, lines, j);
    }
    Ordered(paras, lines);
  }

  /** Paragraph line ranges increase strictly with their index. */
  lemma {:induction false} Ordered(paras: seq<Paragraph>, lines: seq<string>)
    requires IsParagraphing(paras, lines)
    ensures forall k1, k2 :: 0 <= k1 < k2 < |paras| ==> paras[k1].endLine < paras[k2].startLine
  {
    forall k1, k2 | 0 <= k1 < k2 < |paras| ensures paras[k1].endLine < paras[k2].startLine {
      OrderedFrom(paras, lines, k1, k2);
    }
  }

  lemma {:induction false} OrderedFrom(paras: seq<Paragraph>, lines: seq<string>, k1: int, k2: int)
    requires IsParagraphing(paras, lines) && 0 <= k1 < k2 < |paras|
    ensures paras[k1].endLine < paras[k2].startLine
    decreases k2 - k1
  {
    assert Apart(paras, lines, k1);
    if k1 + 1 < k2 {
      OrderedFrom(paras, lines, k1 + 1, k2);
    }
  }

  /** There are no paragraphs exactly when every line is blank; in particular empty content
      has none. */
  lemma NoParagraphs(paras: seq<Paragraph>, lines: seq<string>)
    requires IsParagraphing(paras, lines)
    ensures paras == [] <==> AllBlank(lines)
  {
    if paras != [] {
      assert !Blank(lines[paras[0].startLine]);
    }
  }

  predicate AllBlank(lines: seq<string>) {
    forall i :: 0 <= i < |lines| ==> Blank(lines[i])
  }

  lemma EmptyContent(paras: seq<Paragraph>)
    requires IsParagraphing(paras, Split("", '\n'))
    ensures paras == []
  {
    assert Split("", '\n') == [""];
    NoParagraphs(paras, [""]);
  }

  // ---------------------------------------------------------------------------------------
  // `[PARAGRAPH n]` tags: `re.findall(r'\[PARAGRAPH\s*(\d+)\]\s*(.+?)(?=\[PARAGRAPH|\Z)', reply, re.DOTALL)`

  const Marker := "[PARAGRAPH"

  /** One match of the tag pattern: the paragraph number read by `int` and the raw body. */
  datatype Tag = Tag(paragraph: nat, body: string)

  /** Greedy `\s*` starting at `i`. */
  function SkipSpaces(s: string, i: nat): (j: nat)
    requires i <= |s|
    ensures i <= j <= |s| && (j == |s| || !IsSpace(s[j]))
    decreases |s| - i
  {
    if i < |s| && IsSpace(s[i]) then SkipSpaces(s, i + 1) else i
  }

  /** Everything `SkipSpaces` passes over is whitespace. */
  lemma {:induction false} SkipSpacesRun(s: string, i: nat)
    requires i <= |s|
    ensures forall x :: i <= x < SkipSpaces(s, i) ==> IsSpace(s[x])
    decreases |s| - i
  {
    if i < |s| && IsSpace(s[i]) {
      SkipSpacesRun(s, i + 1);
    }
  }

  /** `SkipSpaces` stops at the first character that is not whitespace. */
  lemma {:induction false} SkipSpacesAt(s: string, i: nat, j: nat)
    requires i <= j < |s| && !IsSpace(s[j])
    requires forall x :: i <= x < j ==> IsSpace(s[x])
    ensures SkipSpaces(s, i) == j
    decreases j - i
  {
    if i < j {
      SkipSpacesAt(s, i + 1, j);
    }
  }

  predicate IsDigit(c: char) {
    '0' <= c <= '9'
  }

  /** Greedy `\d*` starting at `i` (ASCII digits). */
  function SkipDigits(s: string, i: nat): (j: nat)
    requires i <= |s|
    ensures i <= j <= |s| && (j == |s| || !IsDigit(s[j]))
    decreases |s| - i
  {
    if i < |s| && IsDigit(s[i]) then SkipDigits(s, i + 1) else i
  }

  /** Everything `SkipDigits` passes over is a digit. */
  lemma {:induction false} SkipDigitsAll(s: string, i: nat)
    requires i <= |s|
    ensures forall x :: i <= x < SkipDigits(s, i) ==> IsDigit(s[x])
    decreases |s| - i
  {
    if i < |s| && IsDigit(s[i]) {
      SkipDigitsAll(s, i + 1);
    }
  }

  /** The value of a decimal digit; only ever applied to digits. */
  function DigitValue(c: char): nat {
    if IsDigit(c) then c as int - '0' as int else 0
  }

  /** `int(d)` for a string of decimal digits (leading zeros allowed); the scanner applies it
      only to runs of digits. */
  function DigitsValue(d: string): nat {
    if d == [] then 0 else DigitsValue(d[..|d| - 1]) * 10 + DigitValue(d[|d| - 1])
  }

  /** The end of a lazy `(.+?)` starting at `q` that must be followed by `[PARAGRAPH` or the
      end of the text: the first marker after `q`, or the end. */
  function BodyEnd(s: string, q: nat): (e: nat)
    requires q < |s|
    ensures q < e <= |s|
  {
    match IndexFrom(s, Marker, q + 1)
    case Some(m) => m
    case None => |s|
  }

  /** The match of the tag pattern at position `p`, with the position where it ends. When only
      whitespace follows `]`, the greedy `\s*` gives back its last character so that `(.+?)`
      can match it. A match spans at least 13 characters: the marker, a digit, `]` and one
      character of body. */
  function TagAt(s: string, p: nat): (r: Option<(Tag, nat)>)
    requires p <= |s|
    ensures r.Some? ==> p + 13 <= r.value.1 <= |s|
  {
    if !OccursAt(s, Marker, p) then None
    else
      var d := SkipSpaces(s, p + |Marker|);
      var e := SkipDigits(s, d);
      if e == d || e == |s| || s[e] != ']' then None
      else
        var n := DigitsValue(s[d..e]);
        var q := SkipSpaces(s, e + 1);
        if q < |s| then Some((Tag(n, s[q..BodyEnd(s, q)]), BodyEnd(s, q)))
        else if q > e + 1 then Some((Tag(n, s[q - 1..]), |s|))
        else None
  }

  /** `findall` from position `p`: try the pattern at each `[PARAGRAPH`, resume after a match
      and one character further after a failed attempt. Matches do not overlap, so there are
      at most as many tags as 13-character spans in what is left of the text. */
  function Tags(s: string, p: nat): (r: seq<Tag>)
    requires p <= |s|
    ensures 13 * |r| <= |s| - p
    decreases |s| - p, 1
  {
    match IndexFrom(s, Marker, p)
    case None => []
    case Some(m) => TagsAt(s, m)
  }

  /** `findall` at a `[PARAGRAPH` found at `m`. */
  function TagsAt(s: string, m: nat): (r: seq<Tag>)
    requires m <= |s|
    ensures 13 * |r| <= |s| - m
    decreases |s| - m, 0
  {
    match TagAt(s, m)
    case Some(hit) => [hit.0] + Tags(s, hit.1)
    case None => if m < |s| then Tags(s, m + 1) else []
  }

  /** The decimal digits of `n`. */
  function NatStr(n: nat): (r: string)
    ensures r != [] && forall x :: 0 <= x < |r| ==> IsDigit(r[x])
  {
    if n < 10 then [('0' as int + n) as char] else NatStr(n / 10) + [('0' as int + n % 10) as char]
  }

  lemma {:induction false} NatStrValue(n: nat)
    ensures DigitsValue(NatStr(n)) == n
  {
    if n >= 10 {
      NatStrValue(n / 10);
      var r := NatStr(n);
      assert r[..|r| - 1] == NatStr(n / 10);
    }
  }

  /** A body that reads back unchanged: it is non-empty, does not start with whitespace and
      holds no `[`, so it cannot contain the next marker. */
  predicate PlainBody(b: string) {
    b != [] && !IsSpace(b[0]) && '[' !in b
  }

  /** A tag as the model writes it: its number as a string of digits (leading zeros allowed)
      and its body. */
  datatype Written = Written(digits: string, body: string)

  predicate WellWritten(w: Written) {
    w.digits != [] && (forall x :: 0 <= x < |w.digits| ==> IsDigit(w.digits[x])) && PlainBody(w.body)
  }

  /** The text of a written tag, as the prompt asks for it. */
  function Render(w: Written): string {
    Marker + " " + w.digits + "] " + w.body
  }

  function RenderAll(ws: seq<Written>): string {
    if ws == [] then [] else Render(ws[0]) + RenderAll(ws[1..])
  }

  /** The tag a written tag stands for. */
  function Meaning(w: Written): Tag {
    Tag(DigitsValue(w.digits), w.body)
  }

  function Meanings(ws: seq<Written>): (r: seq<Tag>)
    ensures |r| == |ws|
  {
    if ws == [] then [] else [Meaning(ws[0])] + Meanings(ws[1..])
  }

  /** A tag written with its number in decimal. */
  function WriteTag(t: Tag): Written {
    Written(NatStr(t.paragraph), t.body)
  }

  function WriteAll(ts: seq<Tag>): (r: seq<Written>)
    ensures |r| == |ts|
  {
    if ts == [] then [] else [WriteTag(ts[0])] + WriteAll(ts[1..])
  }

  /** Writing tags in decimal and reading back their meaning gives the tags. */
  lemma {:induction false} MeaningsOfWritten(ts: seq<Tag>)
    ensures Meanings(WriteAll(ts)) == ts
    ensures forall k :: 0 <= k < |ts| && PlainBody(ts[k].body) ==> WellWritten(WriteAll(ts)[k])
  {
    if ts != [] {
      MeaningsOfWritten(ts[1..]);
      NatStrValue(ts[0].paragraph);
      assert Meaning(WriteTag(ts[0])) == ts[0];
      assert WriteAll(ts)[1..] == WriteAll(ts[1..]);
      forall k | 0 <= k < |ts| && PlainBody(ts[k].body) ensures WellWritten(WriteAll(ts)[k]) {
        if k > 0 {
          assert WriteAll(ts)[k] == WriteAll(ts[1..])[k - 1];
        }
      }
    }
  }

  /** No marker starts at a position holding anything but `[`. */
  lemma NoMarkerAt(s: string, x: nat)
    requires x < |s| && s[x] != '['
    ensures !OccursAt(s, Marker, x)
  {
    if x + |Marker| <= |s| {
      assert s[x..][..|Marker|][0] == s[x];
    }
  }

  lemma NoMarkerIn(s: string, a: nat, b: nat)
    requires a <= b <= |s| && forall x :: a <= x < b ==> s[x] != '['
    ensures forall x :: a <= x < b ==> !OccursAt(s, Marker, x)
  {
    forall x | a <= x < b ensures !OccursAt(s, Marker, x) {
      NoMarkerAt(s, x);
    }
  }

  /** The length of a written tag's text. */
  function Width(w: Written): nat {
    |Marker| + 3 + |w.digits| + |w.body|
  }

  /** `w` is written in `s` at `p`, and the next marker or the end of `s` follows it: the
      positions of its pieces, with no reference to how `s` was put together. */
  predicate Laid(s: string, p: nat, w: Written) {
    var e := p + |Marker| + 1 + |w.digits|;
    p + Width(w) <= |s| && OccursAt(s, Marker, p) && s[p + |Marker|] == ' ' &&
    s[p + |Marker| + 1..e] == w.digits && s[e] == ']' && s[e + 1] == ' ' &&
    s[e + 2..p + Width(w)] == w.body &&
    (p + Width(w) == |s| || OccursAt(s, Marker, p + Width(w)))
  }

  /** The written tags `ws` fill `s` from `p` to the end, one after another. */
  predicate LaidOut(s: string, p: nat, ws: seq<Written>)
    decreases ws
  {
    if ws == [] then p == |s| else Laid(s, p, ws[0]) && LaidOut(s, p + Width(ws[0]), ws[1..])
  }

  /** Where the pieces of a written tag sit in its text, followed by `rest`. */
  lemma RenderPieces(w: Written, rest: string)
    ensures var x := Render(w) + rest;
      var e := |Marker| + 1 + |w.digits|;
      |Render(w)| == Width(w) && x[..|Marker|] == Marker && x[|Marker|] == ' ' &&
      x[|Marker| + 1..e] == w.digits && x[e] == ']' && x[e + 1] == ' ' &&
      x[e + 2..e + 2 + |w.body|] == w.body && x[e + 2 + |w.body|..] == rest
  {
    var x := Render(w) + rest;
    assert x == Marker + [' '] + w.digits + [']', ' '] + w.body + rest;
  }

  /** Where the pieces of a written tag sit in `s` when its text starts at `p`. */
  lemma RenderAt(s: string, p: nat, w: Written, rest: string)
    requires p <= |s| && s[p..] == Render(w) + rest
    requires rest == [] || StartsWith(rest, Marker)
    ensures |Render(w)| == Width(w) && Laid(s, p, w) && s[p + Width(w)..] == rest
  {
    var x := s[p..];
    RenderPieces(w, rest);
    assert OccursAt(s, Marker, p) by {
      assert s[p..][..|Marker|] == Marker;
    }
    if rest != [] {
      assert OccursAt(s, Marker, p + Width(w)) by {
        assert s[p + Width(w)..][..|Marker|] == rest[..|Marker|];
      }
    }
  }

  /** Written text that fills `s` from `p` is laid out tag after tag. */
  lemma {:induction false} RenderLaidOut(s: string, p: nat, ws: seq<Written>)
    requires p <= |s| && s[p..] == RenderAll(ws)
    ensures LaidOut(s, p, ws)
    decreases ws
  {
    if ws != [] {
      var rest := RenderAll(ws[1..]);
      RenderAllStarts(ws[1..]);
      RenderAt(s, p, ws[0], rest);
      RenderLaidOut(s, p + Width(ws[0]), ws[1..]);
    }
  }

  /** What the scanner needs to read the tag `t` at `p`: `[PARAGRAPH`, one space, the digits
      `D` spelling its number, `]`, one space, and a body starting with a non-space character
      that runs to `end`. */
  predicate Readable(s: string, p: nat, D: string, t: Tag, end: nat) {
    var e := p + |Marker| + 1 + |D|;
    var q := e + 2;
    (forall x :: 0 <= x < |D| ==> IsDigit(D[x])) &&
    D != [] && q < |s| && OccursAt(s, Marker, p) && s[p + |Marker|] == ' ' &&
    s[p + |Marker| + 1..e] == D && s[e] == ']' && s[e + 1] == ' ' && !IsSpace(s[q]) &&
    DigitsValue(D) == t.paragraph && BodyEnd(s, q) == end && s[q..end] == t.body
  }

  /** The pattern matches at `p` and at each place where the previous match ends, giving what
      the written tags `ws` stand for, until the end of `s`. */
  predicate ReadOut(s: string, p: nat, ws: seq<Written>)
    decreases ws
  {
    if ws == [] then p == |s| else
      p < |s| && OccursAt(s, Marker, p) &&
      TagAt(s, p) == Some((Meaning(ws[0]), p + Width(ws[0]))) &&
      ReadOut(s, p + Width(ws[0]), ws[1..])
  }

  /** How the scanner reads `[PARAGRAPH`, one space, the digits `D`, `]`, one space and a
      non-space character at `p`. */
  lemma HeadScan(s: string, p: nat, D: string)
    requires forall x :: 0 <= x < |D| ==> IsDigit(D[x])
    requires var e := p + |Marker| + 1 + |D|;
      D != [] && e + 2 < |s| && OccursAt(s, Marker, p) && s[p + |Marker|] == ' ' &&
      s[p + |Marker| + 1..e] == D && s[e] == ']' && s[e + 1] == ' ' && !IsSpace(s[e + 2])
    ensures var d := p + |Marker| + 1;
      SkipSpaces(s, p + |Marker|) == d && SkipDigits(s, d) == d + |D| &&
      SkipSpaces(s, d + |D| + 1) == d + |D| + 2
  {
    var d := p + |Marker| + 1;
    var e := d + |D|;
    assert s[d] == D[0];
    SkipOneSpace(s, p + |Marker|);
    SkipDigitsOver(s, d, D);
    SkipOneSpace(s, e + 1);
  }

  /** `SkipDigits` over a copy of the digits `D` followed by a non-digit. */
  lemma SkipDigitsOver(s: string, d: nat, D: string)
    requires d + |D| < |s| && s[d..d + |D|] == D && !IsDigit(s[d + |D|])
    requires forall x :: 0 <= x < |D| ==> IsDigit(D[x])
    ensures SkipDigits(s, d) == d + |D|
  {
    forall x | d <= x < d + |D| ensures IsDigit(s[x]) {
      assert s[x] == s[d..d + |D|][x - d];
    }
    SkipDigitsRun(s, d, d + |D|);
  }

  /** `SkipSpaces` over a single space followed by a non-space character (a digit, for the
      space after `[PARAGRAPH`). */
  lemma SkipOneSpace(s: string, i: nat)
    requires i + 1 < |s| && s[i] == ' ' && (IsDigit(s[i + 1]) || !IsSpace(s[i + 1]))
    ensures SkipSpaces(s, i) == i + 1
  {
    assert !IsSpace(s[i + 1]);
    assert SkipSpaces(s, i + 1) == i + 1;
  }

  /** The pattern at `p` when `s` holds `[PARAGRAPH`, one space, the digits `D`, `]`, one
      space and a non-space character: the body starts at that character, and the match is
      the tag `t` when `D` spells its number and the body up to `BodyEnd` is its body. */
  lemma TagAtHead(s: string, p: nat, D: string, t: Tag, end: nat)
    requires Readable(s, p, D, t, end)
    ensures TagAt(s, p) == Some((t, end))
  {
    HeadScan(s, p, D);
  }

  /** A body without `[` followed by the next tag or by the end runs exactly to there. */
  lemma BodyEndPlain(s: string, q: nat, end: nat)
    requires q < end <= |s| && forall x :: q < x < end ==> s[x] != '['
    requires end == |s| || OccursAt(s, Marker, end)
    ensures BodyEnd(s, q) == end
  {
    NoMarkerIn(s, q + 1, end);
    IndexFromSkips(s, Marker, q + 1, end);
  }

  /** The body of a laid-out tag runs exactly to the next marker or the end. */
  lemma LaidBodyEnd(s: string, p: nat, w: Written)
    requires PlainBody(w.body) && Laid(s, p, w)
    ensures var q := p + |Marker| + 1 + |w.digits| + 2;
      q < p + Width(w) && BodyEnd(s, q) == p + Width(w)
  {
    var q := p + |Marker| + 1 + |w.digits| + 2;
    var end := p + Width(w);
    forall x | q < x < end ensures s[x] != '[' {
      assert s[x] == s[q..end][x - q];
    }
    BodyEndPlain(s, q, end);
  }

  /** A laid-out tag is readable where it is laid. */
  lemma LaidHead(s: string, p: nat, w: Written)
    requires WellWritten(w) && Laid(s, p, w)
    ensures Readable(s, p, w.digits, Meaning(w), p + Width(w))
  {
    var q := p + |Marker| + 1 + |w.digits| + 2;
    LaidBodyEnd(s, p, w);
    assert s[q] == w.body[0] by {
      assert s[q] == s[q..p + Width(w)][0];
    }
  }

  lemma {:induction false} SkipDigitsRun(s: string, d: nat, e: nat)
    requires d <= e < |s| && (forall x :: d <= x < e ==> IsDigit(s[x])) && !IsDigit(s[e])
    ensures SkipDigits(s, d) == e
    decreases e - d
  {
    if d < e {
      SkipDigitsRun(s, d + 1, e);
    }
  }

  /** One step of `findall`: a match at the first marker is emitted and the scan resumes
      where it ends. */
  lemma TagsStep(s: string, p: nat, m: nat, t: Tag, e: nat)
    requires p <= |s| && IndexFrom(s, Marker, p) == Some(m) && TagAt(s, m) == Some((t, e))
    ensures Tags(s, p) == [t] + Tags(s, e)
  {
    assert Tags(s, p) == TagsAt(s, m);
  }

  /** Well-written tags laid out one after another match one after another. */
  lemma {:induction false} LaidReadOut(s: string, p: nat, ws: seq<Written>)
    requires forall k :: 0 <= k < |ws| ==> WellWritten(ws[k])
    requires LaidOut(s, p, ws)
    ensures ReadOut(s, p, ws)
    decreases ws
  {
    if ws != [] {
      LaidHead(s, p, ws[0]);
      TagAtHead(s, p, ws[0].digits, Meaning(ws[0]), p + Width(ws[0]));
      LaidReadOut(s, p + Width(ws[0]), ws[1..]);
    }
  }

  /** Reading back tags that match one after another gives what they stand for. */
  lemma {:induction false} TagsRender(s: string, p: nat, ws: seq<Written>)
    requires p <= |s| && ReadOut(s, p, ws)
    ensures Tags(s, p) == Meanings(ws)
    decreases ws
  {
    if ws == [] {
      assert IndexFrom(s, Marker, p) == None by {
        assert p == |s|;
        assert !OccursAt(s, Marker, p);
      }
      TagsNone(s, p);
    } else {
      var e := p + Width(ws[0]);
      TagsRender(s, e, ws[1..]);
      assert IndexFrom(s, Marker, p) == Some(p);
      TagsStep(s, p, p, Meaning(ws[0]), e);
    }
  }

  lemma TagsNone(s: string, p: nat)
    requires p <= |s| && IndexFrom(s, Marker, p) == None
    ensures Tags(s, p) == []
  {
  }

  /** The scan only looks at where the next marker is. */
  lemma TagsSame(s: string, a: nat, b: nat)
    requires a <= |s| && b <= |s| && IndexFrom(s, Marker, a) == IndexFrom(s, Marker, b)
    ensures Tags(s, a) == Tags(s, b)
  {
  }

  lemma RenderStarts(w: Written, rest: string)
    ensures StartsWith(Render(w) + rest, Marker)
  {
    assert (Render(w) + rest)[..|Marker|] == Marker;
  }

  lemma RenderAllStarts(ws: seq<Written>)
    ensures RenderAll(ws) == [] || StartsWith(RenderAll(ws), Marker)
  {
    if ws != [] {
      RenderStarts(ws[0], RenderAll(ws[1..]));
    }
  }

  /** Prose before the first tag is ignored, and each body runs up to the next tag: a reply
      made of prose without `[` followed by written tags parses back to what they stand for. */
  lemma TagsOfWritten(prose: string, ws: seq<Written>)
    requires '[' !in prose
    requires forall k :: 0 <= k < |ws| ==> WellWritten(ws[k])
    ensures Tags(prose + RenderAll(ws), 0) == Meanings(ws)
  {
    var s := prose + RenderAll(ws);
    assert IndexFrom(s, Marker, 0) == IndexFrom(s, Marker, |prose|) by {
      NoMarkerIn(s, 0, |prose|) by {
        forall x | 0 <= x < |prose| ensures s[x] != '[' {
          assert s[x] == prose[x];
        }
      }
      IndexFromSkips(s, Marker, 0, |prose|);
    }
    TagsSame(s, 0, |prose|);
    assert s[|prose|..] == RenderAll(ws);
    RenderLaidOut(s, |prose|, ws);
    LaidReadOut(s, |prose|, ws);
    TagsRender(s, |prose|, ws);
  }

  /** Round trip: tags with plain bodies, written in decimal after some prose without `[`,
      are parsed back to exactly those tags. */
  lemma TagsOfReply(prose: string, ts: seq<Tag>)
    requires '[' !in prose
    requires forall k :: 0 <= k < |ts| ==> PlainBody(ts[k].body)
    ensures Tags(prose + RenderAll(WriteAll(ts)), 0) == ts
  {
    MeaningsOfWritten(ts);
    TagsOfWritten(prose, WriteAll(ts));
  }

  // ---------------------------------------------------------------------------------------
  // Comments and the review stream

  /** A review comment without its random id and creation time; the anchor's file is always
      `document.md`. */
  datatype Comment = Comment(
    content: string,
    filePath: string,
    startLine: int,
    endLine: int,
    personaId: string,
    personaName: string,
    personaColor: string,
    documentId: string,
    versionHash: string)

  /** The comment for a tag whose paragraph exists. */
  function CommentOf(t: Tag, persona: Persona, paras: seq<Paragraph>, documentId: string, versionHash: string): (c: Comment)
    requires t.paragraph < |paras|
    ensures Anchored(c, paras) && Authored(c, persona, documentId, versionHash)
  {
    Comment(Strip(t.body), "document.md", paras[t.paragraph].startLine, paras[t.paragraph].endLine,
            persona.id, persona.name, persona.color, documentId, versionHash)
  }

  /** `c` is anchored to the lines of one of `paras`. */
  predicate Anchored(c: Comment, paras: seq<Paragraph>) {
    exists k :: 0 <= k < |paras| && c.startLine == paras[k].startLine && c.endLine == paras[k].endLine
  }

  /** `c` was written by `persona` for this document version, and its content is stripped. */
  predicate Authored(c: Comment, persona: Persona, documentId: string, versionHash: string) {
    c.personaId == persona.id && c.personaName == persona.name && c.personaColor == persona.color &&
    c.documentId == documentId && c.versionHash == versionHash && c.filePath == "document.md" &&
    Unpadded(c.content)
  }

  /** The comment for a tag spans exactly the lines of the paragraph the tag names, and its
      content is the tag's body stripped, empty exactly when that body is all whitespace. */
  lemma CommentOfSpec(t: Tag, persona: Persona, paras: seq<Paragraph>, documentId: string, versionHash: string)
    requires t.paragraph < |paras|
    ensures var c := CommentOf(t, persona, paras, documentId, versionHash);
      c.startLine == paras[t.paragraph].startLine && c.endLine == paras[t.paragraph].endLine &&
      c.content == Strip(t.body) && (c.content == [] <==> AllSpace(t.body))
  {
  }

  /** The comments for the tags of one reply: tags naming a paragraph that does not exist are
      dropped, the others become comments in tag order. */
  function CommentsOf(tags: seq<Tag>, persona: Persona, paras: seq<Paragraph>, documentId: string, versionHash: string): (r: seq<Comment>)
    ensures |r| <= |tags|
  {
    if tags == [] then []
    else Emitted(tags[0], persona, paras, documentId, versionHash) + CommentsOf(tags[1..], persona, paras, documentId, versionHash)
  }

  /** What one tag contributes: its comment when its paragraph exists, nothing otherwise. */
  function Emitted(t: Tag, persona: Persona, paras: seq<Paragraph>, documentId: string, versionHash: string): (r: seq<Comment>)
    ensures |r| <= 1
  {
    if t.paragraph < |paras| then [CommentOf(t, persona, paras, documentId, versionHash)] else []
  }

  /** Every comment of a reply is anchored to an existing paragraph and authored by the
      reviewing persona for this document version. */
  lemma {:induction false} CommentsOfSpec(tags: seq<Tag>, persona: Persona, paras: seq<Paragraph>, documentId: string, versionHash: string)
    ensures forall c :: c in CommentsOf(tags, persona, paras, documentId, versionHash) ==>
      Anchored(c, paras) && Authored(c, persona, documentId, versionHash)
    decreases |tags|
  {
    if tags != [] {
      CommentsOfSpec(tags[1..], persona, paras, documentId, versionHash);
    }
  }

  /** One tag gives one comment when its paragraph exists and none otherwise. */
  lemma CommentsOfOne(t: Tag, persona: Persona, paras: seq<Paragraph>, documentId: string, versionHash: string)
    ensures CommentsOf([t], persona, paras, documentId, versionHash) ==
      if t.paragraph < |paras| then [CommentOf(t, persona, paras, documentId, versionHash)] else []
  {
  }

  /** Tag order is kept: the comments of two runs of tags are the comments of each, in order. */
  /** The comments of the first `i + 1` tags: those of the first `i`, then what tag `i` gives. */
  lemma CommentsOfPrefix(tags: seq<Tag>, i: nat, persona: Persona, paras: seq<Paragraph>, documentId: string, versionHash: string)
    requires i < |tags|
    ensures CommentsOf(tags[..i + 1], persona, paras, documentId, versionHash) ==
      CommentsOf(tags[..i], persona, paras, documentId, versionHash) + Emitted(tags[i], persona, paras, documentId, versionHash)
  {
    CommentsOfAppend(tags[..i], [tags[i]], persona, paras, documentId, versionHash);
    assert tags[..i + 1] == tags[..i] + [tags[i]];
  }

  lemma {:induction false} CommentsOfAppend(a: seq<Tag>, b: seq<Tag>, persona: Persona, paras: seq<Paragraph>, documentId: string, versionHash: string)
    ensures CommentsOf(a + b, persona, paras, documentId, versionHash) ==
      CommentsOf(a, persona, paras, documentId, versionHash) + CommentsOf(b, persona, paras, documentId, versionHash)
    decreases |a|
  {
    if a == [] {
      assert a + b == b;
    } else {
      CommentsOfAppend(a[1..], b, persona, paras, documentId, versionHash);
      TailOfAppend(a, b);
      var e := Emitted(a[0], persona, paras, documentId, versionHash);
      var x := CommentsOf(a[1..], persona, paras, documentId, versionHash);
      var y := CommentsOf(b, persona, paras, documentId, versionHash);
      AppendAssoc(e, x, y);
    }
  }

  /** The comments of one persona's reply (`review_with_persona`), built tag by tag. */
  method ReviewWithPersona(persona: Persona, reply: string, paras: seq<Paragraph>, documentId: string, versionHash: string)
    returns (comments: seq<Comment>)
    ensures comments == CommentsOf(Tags(reply, 0), persona, paras, documentId, versionHash)
  {
    var matches := Tags(reply, 0);
    comments := [];
    for i := 0 to |matches|
      invariant comments == CommentsOf(matches[..i], persona, paras, documentId, versionHash)
    {
      var t := matches[i];
      CommentsOfPrefix(matches, i, persona, paras, documentId, versionHash);
      if t.paragraph < |paras| {
        comments := comments + [CommentOf(t, persona, paras, documentId, versionHash)];
      }
    }
    assert matches[..|matches|] == matches;
  }

  /** What `review_document` yields for `personas` in turn, each with its reply, and whether a
      failed call ended the stream early. */
  function Stream(personas: seq<Persona>, replies: seq<Option<string>>, paras: seq<Paragraph>, documentId: string, versionHash: string): (r: (seq<Comment>, bool))
    requires |replies| == |personas|
    ensures !r.1 ==> None !in replies
  {
    if personas == [] then ([], false)
    else
      match replies[0]
      case None => ([], true)
      case Some(reply) =>
        var rest := Stream(personas[1..], replies[1..], paras, documentId, versionHash);
        (CommentsOf(Tags(reply, 0), personas[0], paras, documentId, versionHash) + rest.0, rest.1)
  }

  /** Every streamed comment is anchored to an existing paragraph and authored by one of the
      selected personas. */
  lemma {:induction false} StreamSpec(personas: seq<Persona>, replies: seq<Option<string>>, paras: seq<Paragraph>, documentId: string, versionHash: string)
    requires |replies| == |personas|
    ensures forall c :: c in Stream(personas, replies, paras, documentId, versionHash).0 ==>
      Anchored(c, paras) && exists k :: 0 <= k < |personas| && Authored(c, personas[k], documentId, versionHash)
    decreases |personas|
  {
    if personas != [] && replies[0].Some? {
      var own := CommentsOf(Tags(replies[0].value, 0), personas[0], paras, documentId, versionHash);
      var rest := Stream(personas[1..], replies[1..], paras, documentId, versionHash);
      assert Stream(personas, replies, paras, documentId, versionHash).0 == own + rest.0;
      CommentsOfSpec(Tags(replies[0].value, 0), personas[0], paras, documentId, versionHash);
      StreamSpec(personas[1..], replies[1..], paras, documentId, versionHash);
      forall c | c in own + rest.0
        ensures Anchored(c, paras) && exists k :: 0 <= k < |personas| && Authored(c, personas[k], documentId, versionHash)
      {
        if c in own {
          assert Authored(c, personas[0], documentId, versionHash);
        } else {
          var k :| 0 <= k < |personas| - 1 && Authored(c, personas[1..][k], documentId, versionHash);
          assert Authored(c, personas[k + 1], documentId, versionHash);
        }
      }
    }
  }

  /** Personas are reviewed one after another: the stream for two lists of personas is the
      stream of the first followed by that of the second, unless a call in the first failed,
      which ends the whole stream there. */
  lemma {:induction false} StreamAppend(ps1: seq<Persona>, rs1: seq<Option<string>>, ps2: seq<Persona>, rs2: seq<Option<string>>,
                                        paras: seq<Paragraph>, documentId: string, versionHash: string)
    requires |rs1| == |ps1| && |rs2| == |ps2|
    ensures var s1 := Stream(ps1, rs1, paras, documentId, versionHash);
      var s2 := Stream(ps2, rs2, paras, documentId, versionHash);
      Stream(ps1 + ps2, rs1 + rs2, paras, documentId, versionHash) == if s1.1 then s1 else (s1.0 + s2.0, s2.1)
    decreases |ps1|
  {
    if ps1 == [] {
      assert ps1 + ps2 == ps2 && rs1 + rs2 == rs2;
      assert [] + Stream(ps2, rs2, paras, documentId, versionHash).0 == Stream(ps2, rs2, paras, documentId, versionHash).0;
    } else {
      TailOfAppend(ps1, ps2);
      TailOfAppend(rs1, rs2);
      if rs1[0].Some? {
        StreamAppend(ps1[1..], rs1[1..], ps2, rs2, paras, documentId, versionHash);
        var own := CommentsOf(Tags(rs1[0].value, 0), ps1[0], paras, documentId, versionHash);
        var t1 := Stream(ps1[1..], rs1[1..], paras, documentId, versionHash);
        var s2 := Stream(ps2, rs2, paras, documentId, versionHash);
        AppendAssoc(own, t1.0, s2.0);
      }
    }
  }

  /** The stream fails exactly when some call fails. */
  lemma {:induction false} StreamFails(personas: seq<Persona>, replies: seq<Option<string>>, paras: seq<Paragraph>, documentId: string, versionHash: string)
    requires |replies| == |personas|
    ensures Stream(personas, replies, paras, documentId, versionHash).1 <==> exists k :: 0 <= k < |replies| && replies[k].None?
    decreases |personas|
  {
    if personas != [] && replies[0].Some? {
      StreamFails(personas[1..], replies[1..], paras, documentId, versionHash);
      if exists k :: 0 <= k < |replies| && replies[k].None? {
        var k :| 0 <= k < |replies| && replies[k].None?;
        assert replies[1..][k - 1].None?;
      }
    }
  }

  /** One persona's turn in the stream: a failed call ends it, a reply contributes its
      comments ahead of those of the personas after it. */
  lemma StreamStep(personas: seq<Persona>, replies: seq<Option<string>>, i: nat, paras: seq<Paragraph>, documentId: string, versionHash: string)
    requires |replies| == |personas| && i < |personas|
    ensures replies[i].None? ==> Stream(personas[i..], replies[i..], paras, documentId, versionHash) == ([], true)
    ensures replies[i].Some? ==>
      var rest := Stream(personas[i + 1..], replies[i + 1..], paras, documentId, versionHash);
      Stream(personas[i..], replies[i..], paras, documentId, versionHash) ==
        (CommentsOf(Tags(replies[i].value, 0), personas[i], paras, documentId, versionHash) + rest.0, rest.1)
  {
    assert personas[i..][1..] == personas[i + 1..];
    assert replies[i..][1..] == replies[i + 1..];
  }

  /** Comments already sent, followed by what the rest of the stream sends. */
  function After(sent: seq<Comment>, rest: (seq<Comment>, bool)): (seq<Comment>, bool) {
    (sent + rest.0, rest.1)
  }

  /** A persona whose call fails ends the stream with what was sent so far; one whose call
      succeeds adds its comments to what was sent. */
  lemma StreamAdvance(personas: seq<Persona>, replies: seq<Option<string>>, i: nat, paras: seq<Paragraph>,
                      documentId: string, versionHash: string, sent: seq<Comment>)
    requires |replies| == |personas| && i < |personas|
    ensures replies[i].None? ==>
      After(sent, Stream(personas[i..], replies[i..], paras, documentId, versionHash)) == (sent, true)
    ensures replies[i].Some? ==>
      After(sent, Stream(personas[i..], replies[i..], paras, documentId, versionHash)) ==
      After(sent + CommentsOf(Tags(replies[i].value, 0), personas[i], paras, documentId, versionHash),
            Stream(personas[i + 1..], replies[i + 1..], paras, documentId, versionHash))
  {
    StreamStep(personas, replies, i, paras, documentId, versionHash);
    if replies[i].None? {
      assert sent + [] == sent;
    } else {
      var own := CommentsOf(Tags(replies[i].value, 0), personas[i], paras, documentId, versionHash);
      var rest := Stream(personas[i + 1..], replies[i + 1..], paras, documentId, versionHash);
      AppendAssoc(sent, own, rest.0);
    }
  }

  /** The stream from the start is the stream from persona 0 after nothing, and the stream
      past the last persona adds nothing. */
  lemma StreamEnds(personas: seq<Persona>, replies: seq<Option<string>>, paras: seq<Paragraph>,
                   documentId: string, versionHash: string, sent: seq<Comment>)
    requires |replies| == |personas|
    ensures Stream(personas, replies, paras, documentId, versionHash) ==
      After([], Stream(personas[0..], replies[0..], paras, documentId, versionHash))
    ensures After(sent, Stream(personas[|personas|..], replies[|personas|..], paras, documentId, versionHash)) ==
      (sent, false)
  {
    var whole := Stream(personas, replies, paras, documentId, versionHash);
    assert personas[0..] == personas && replies[0..] == replies;
    assert [] + whole.0 == whole.0;
    assert personas[|personas|..] == [] && replies[|personas|..] == [];
    assert sent + [] == sent;
  }

  /** The reviewing loop of `review_document`: persona after persona, stopping at the first
      call that fails. */
  method StreamReviews(personas: seq<Persona>, replies: seq<Option<string>>, paras: seq<Paragraph>, documentId: string, versionHash: string)
    returns (comments: seq<Comment>, failed: bool)
    requires |replies| == |personas|
    ensures (comments, failed) == Stream(personas, replies, paras, documentId, versionHash)
  {
    comments := [];
    failed := false;
    StreamEnds(personas, replies, paras, documentId, versionHash, []);
    var i := 0;
    while i < |personas|
      invariant 0 <= i <= |personas|
      invariant Stream(personas, replies, paras, documentId, versionHash) ==
        After(comments, Stream(personas[i..], replies[i..], paras, documentId, versionHash))
    {
      StreamAdvance(personas, replies, i, paras, documentId, versionHash, comments);
      match replies[i]
      case None =>
        failed := true;
        return;
      case Some(reply) =>
        var own := ReviewWithPersona(personas[i], reply, paras, documentId, versionHash);
        comments := comments + own;
        i := i + 1;
    }
    StreamEnds(personas, replies, paras, documentId, versionHash, comments);
  }

  /** `review_document`: select the personas, split the document into paragraphs, then review
      persona after persona, stopping at the first call that fails. */
  method ReviewDocument(documentId: string, content: string, versionHash: string, personaIds: Option<seq<string>>,
                        replies: seq<Option<string>>)
    returns (comments: seq<Comment>, failed: bool, ghost paras: seq<Paragraph>)
    requires |replies| == |SelectPersonas(personaIds)|
    ensures IsParagraphing(paras, Split(content, '\n'))
    ensures (comments, failed) == Stream(SelectPersonas(personaIds), replies, paras, documentId, versionHash)
  {
    var personas := SelectPersonas(personaIds);
    var ps := ParseDocumentStructure(content);
    paras := ps;
    comments, failed := StreamReviews(personas, replies, ps, documentId, versionHash);
  }
}
