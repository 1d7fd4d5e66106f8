/** Meta-review synthesis: grouping the persona comments of one review by location, the
    deterministic fallback synthesis, and everything `synthesize` does around the model call
    (fence stripping, citing sources, resolving the line range of each finding). The model's
    reply is an input; `json.loads` is the `decode` parameter, and `None` from it (or no reply
    at all) is the failure that selects the fallback. */
module MetaService {
  import opened Wrappers
  import opened Text
  import opened Seqs

  /** One stored persona comment as `synthesize` receives it. `id` is read with `c.get("id")`,
      so it may be absent. */
  datatype PersonaComment = PersonaComment(
    id: Option<string>,
    personaId: string,
    personaName: string,
    personaColor: string,
    content: string,
    startLine: int,
    endLine: int)

  /** A run of comments whose line ranges overlap or lie within 2 lines of each other. */
  datatype Group = Group(startLine: int, endLine: int, comments: seq<PersonaComment>)

  datatype Source = Source(personaId: string, personaName: string, personaColor: string, originalContent: string)

  /** A meta-comment without its random id and creation time. */
  datatype MetaComment = MetaComment(
    content: string,
    startLine: int,
    endLine: int,
    sources: seq<Source>,
    category: string,
    priority: string)

  /** One element of the model's JSON array. A key the model left out is `None`; a missing
      `contributing_personas` or `line_ranges` reads as the empty list. */
  datatype Finding = Finding(
    groupIndex: Option<int>,
    content: Option<string>,
    category: Option<string>,
    priority: Option<string>,
    contributingPersonas: seq<string>,
    lineRanges: seq<(int, int)>)

  // ----- Sorting by (start_line, end_line) -----

  /** `(a.start_line, a.end_line) <= (b.start_line, b.end_line)` on Python tuples. */
  predicate LocationLe(a: PersonaComment, b: PersonaComment) {
    a.startLine < b.startLine || (a.startLine == b.startLine && a.endLine <= b.endLine)
  }

  predicate SortedByLocation(cs: seq<PersonaComment>) {
    forall i, j :: 0 <= i < j < |cs| ==> LocationLe(cs[i], cs[j])
  }

  function Key(c: PersonaComment): (int, int) {
    (c.startLine, c.endLine)
  }

  /** The comments of `cs` whose key is `k`, in order. */
  function WithKey(cs: seq<PersonaComment>, k: (int, int)): seq<PersonaComment> {
    if cs == [] then [] else (if Key(cs[0]) == k then [cs[0]] else []) + WithKey(cs[1..], k)
  }

  /** Places `c` before the first element whose key is not smaller than its own. */
  function Insert(c: PersonaComment, sorted: seq<PersonaComment>): (r: seq<PersonaComment>)
    ensures |r| == |sorted| + 1
    ensures multiset(r) == multiset(sorted) + multiset{c}
  {
    if sorted == [] || LocationLe(c, sorted[0]) then [c] + sorted
    else
      HeadTail(sorted);
      [sorted[0]] + Insert(c, sorted[1..])
  }

  /** `sorted(comments, key=lambda c: (c["start_line"], c["end_line"]))`. */
  function SortByLocation(cs: seq<PersonaComment>): (r: seq<PersonaComment>)
    ensures |r| == |cs| && multiset(r) == multiset(cs)
  {
    if cs == [] then []
    else
      HeadTail(cs);
      Insert(cs[0], SortByLocation(cs[1..]))
  }

  lemma {:induction false} InsertSorted(c: PersonaComment, s: seq<PersonaComment>)
    requires SortedByLocation(s)
    ensures SortedByLocation(Insert(c, s))
    decreases |s|
  {
    if s != [] && !LocationLe(c, s[0]) {
      InsertSorted(c, s[1..]);
      var t := Insert(c, s[1..]);
      forall x | x in t ensures LocationLe(s[0], x) {
        assert x in multiset(t);
      }
    }
  }

  lemma {:induction false} InsertStable(c: PersonaComment, s: seq<PersonaComment>, k: (int, int))
    ensures WithKey(Insert(c, s), k) == (if Key(c) == k then [c] else []) + WithKey(s, k)
    decreases |s|
  {
    if s == [] || LocationLe(c, s[0]) {
      assert ([c] + s)[1..] == s;
    } else {
      InsertStable(c, s[1..], k);
      assert ([s[0]] + Insert(c, s[1..]))[1..] == Insert(c, s[1..]);
    }
  }

  /** The sort is Python's: ordered by `(start_line, end_line)`, a permutation of its input,
      and stable (comments with equal keys keep their input order). */
  lemma {:induction false} SortByLocationSpec(cs: seq<PersonaComment>)
    ensures SortedByLocation(SortByLocation(cs))
    ensures multiset(SortByLocation(cs)) == multiset(cs)
    ensures forall k :: WithKey(SortByLocation(cs), k) == WithKey(cs, k)
    decreases |cs|
  {
    if cs != [] {
      SortByLocationSpec(cs[1..]);
      InsertSorted(cs[0], SortByLocation(cs[1..]));
      forall k ensures WithKey(SortByLocation(cs), k) == WithKey(cs, k) {
        InsertStable(cs[0], SortByLocation(cs[1..]), k);
      }
    }
  }

  // ----- Grouping by location -----

  function Max(a: int, b: int): int {
    if a >= b then a else b
  }

  /** The largest `end_line` among `cs`. */
  function MaxEnd(cs: seq<PersonaComment>): (m: int)
    requires cs != []
    ensures forall i :: 0 <= i < |cs| ==> cs[i].endLine <= m
    ensures exists i :: 0 <= i < |cs| && cs[i].endLine == m
  {
    if |cs| == 1 then cs[0].endLine
    else
      var m := MaxEnd(cs[..|cs| - 1]);
      assert forall i :: 0 <= i < |cs| - 1 ==> cs[..|cs| - 1][i] == cs[i];
      Max(m, cs[|cs| - 1].endLine)
  }

  /** Every comment after the first starts at most 2 lines after the running end of the
      comments before it. */
  predicate Chained(cs: seq<PersonaComment>) {
    forall i :: 0 < i < |cs| ==> cs[i].startLine <= MaxEnd(cs[..i]) + 2
  }

  /** A group as the grouping loop leaves it: not empty, starting at its first comment, whose
      start is the smallest, ending at the largest end, and chained. */
  predicate GroupOk(g: Group) {
    g.comments != [] &&
    g.startLine == g.comments[0].startLine &&
    (forall i :: 0 <= i < |g.comments| ==> g.startLine <= g.comments[i].startLine) &&
    g.endLine == MaxEnd(g.comments) &&
    Chained(g.comments)
  }

  /** Each group starts more than 2 lines after the previous one ends. */
  predicate Separated(gs: seq<Group>) {
    forall k :: 0 < k < |gs| ==> gs[k - 1].endLine + 2 < gs[k].startLine
  }

  /** The groups' comment lists, concatenated in order. */
  function Flatten(gs: seq<Group>): seq<PersonaComment> {
    if gs == [] then [] else Flatten(gs[..|gs| - 1]) + gs[|gs| - 1].comments
  }

  function Single(c: PersonaComment): Group {
    Group(c.startLine, c.endLine, [c])
  }

  /** The open group after `c` joins it. */
  function Extend(g: Group, c: PersonaComment): Group {
    Group(g.startLine, Max(g.endLine, c.endLine), g.comments + [c])
  }

  /** The grouping loop: the sorted comments not yet visited, the open group and the closed groups. */
  function GroupRun(rest: seq<PersonaComment>, current: Group, done: seq<Group>): seq<Group>
    decreases |rest|
  {
    if rest == [] then done + [current]
    else if rest[0].startLine <= current.endLine + 2 then
      GroupRun(rest[1..], Extend(current, rest[0]), done)
    else
      GroupRun(rest[1..], Single(rest[0]), done + [current])
  }

  /** A closed group is never reopened, the open group is closed at the end, and each further
      comment opens at most one new group. */
  lemma {:induction false} GroupRunKeepsClosed(rest: seq<PersonaComment>, current: Group, done: seq<Group>)
    ensures var r := GroupRun(rest, current, done);
      |done| < |r| <= |done| + 1 + |rest| && r[..|done|] == done
    decreases |rest|
  {
    if rest != [] {
      if rest[0].startLine <= current.endLine + 2 {
        GroupRunKeepsClosed(rest[1..], Extend(current, rest[0]), done);
      } else {
        GroupRunKeepsClosed(rest[1..], Single(rest[0]), done + [current]);
        var r := GroupRun(rest, current, done);
        assert r[..|done|] == r[..|done| + 1][..|done|];
      }
    }
  }

  lemma ExtendOk(g: Group, c: PersonaComment)
    requires GroupOk(g)
    requires g.startLine <= c.startLine <= g.endLine + 2
    ensures GroupOk(Extend(g, c))
  {
    MaxEndSnoc(g.comments, c);
    ChainedSnoc(g.comments, c);
    var cs := g.comments + [c];
    assert cs[0] == g.comments[0];
    forall i | 0 <= i < |cs| ensures g.startLine <= cs[i].startLine {
      if i < |g.comments| {
        assert cs[i] == g.comments[i];
      }
    }
  }

  /** The running end after one more comment. */
  lemma MaxEndSnoc(cs: seq<PersonaComment>, c: PersonaComment)
    requires cs != []
    ensures MaxEnd(cs + [c]) == Max(MaxEnd(cs), c.endLine)
  {
    assert (cs + [c])[..|cs|] == cs;
  }

  /** A comment that starts within 2 lines of the running end keeps the list chained. */
  lemma ChainedSnoc(cs: seq<PersonaComment>, c: PersonaComment)
    requires cs != [] && Chained(cs) && c.startLine <= MaxEnd(cs) + 2
    ensures Chained(cs + [c])
  {
    var ds := cs + [c];
    forall i | 0 < i < |ds| ensures ds[i].startLine <= MaxEnd(ds[..i]) + 2 {
      if i < |cs| {
        assert ds[..i] == cs[..i] && ds[i] == cs[i];
      } else {
        assert ds[..i] == cs;
      }
    }
  }

  lemma FlattenAppend(gs: seq<Group>, g: Group)
    ensures Flatten(gs + [g]) == Flatten(gs) + g.comments
  {
    assert (gs + [g])[..|gs|] == gs;
  }

  lemma SeparatedReplaceLast(done: seq<Group>, current: Group, next: Group)
    requires Separated(done + [current])
    requires next.startLine == current.startLine
    ensures Separated(done + [next])
  {
    assert forall k :: 0 <= k < |done| ==> (done + [next])[k] == (done + [current])[k];
  }

  lemma SeparatedPush(closed: seq<Group>, g: Group)
    requires Separated(closed)
    requires closed != [] ==> closed[|closed| - 1].endLine + 2 < g.startLine
    ensures Separated(closed + [g])
  {
    assert forall k :: 0 <= k < |closed| ==> (closed + [g])[k] == closed[k];
  }

  /** What `_group_comments_by_location` returns for `comments`. */
  function Groups(comments: seq<PersonaComment>): (r: seq<Group>)
    ensures |r| <= |comments|
    ensures r == [] <==> comments == []
  {
    if comments == [] then []
    else
      var sorted := SortByLocation(comments);
      GroupRunKeepsClosed(sorted[1..], Single(sorted[0]), []);
      GroupRun(sorted[1..], Single(sorted[0]), [])
  }

  lemma {:induction false} GroupRunFlatten(rest: seq<PersonaComment>, current: Group, done: seq<Group>)
    ensures Flatten(GroupRun(rest, current, done)) == Flatten(done) + current.comments + rest
    decreases |rest|
  {
    if rest == [] {
      FlattenAppend(done, current);
    } else if rest[0].startLine <= current.endLine + 2 {
      GroupRunFlatten(rest[1..], Extend(current, rest[0]), done);
      assert current.comments + rest == (current.comments + [rest[0]]) + rest[1..];
    } else {
      GroupRunFlatten(rest[1..], Single(rest[0]), done + [current]);
      FlattenAppend(done, current);
      HeadTail(rest);
    }
  }

  lemma {:induction false} GroupRunSeparated(rest: seq<PersonaComment>, current: Group, done: seq<Group>)
    requires Separated(done + [current])
    ensures Separated(GroupRun(rest, current, done))
    decreases |rest|
  {
    if rest != [] {
      if rest[0].startLine <= current.endLine + 2 {
        SeparatedReplaceLast(done, current, Extend(current, rest[0]));
        GroupRunSeparated(rest[1..], Extend(current, rest[0]), done);
      } else {
        SeparatedPush(done + [current], Single(rest[0]));
        GroupRunSeparated(rest[1..], Single(rest[0]), done + [current]);
      }
    }
  }

  lemma {:induction false} GroupRunOk(rest: seq<PersonaComment>, current: Group, done: seq<Group>)
    requires SortedByLocation(rest)
    requires rest != [] ==> current.startLine <= rest[0].startLine
    requires GroupOk(current)
    requires forall k :: 0 <= k < |done| ==> GroupOk(done[k])
    ensures forall k :: 0 <= k < |GroupRun(rest, current, done)| ==> GroupOk(GroupRun(rest, current, done)[k])
    decreases |rest|
  {
    if rest != [] {
      var c := rest[0];
      SortedTail(rest);
      if c.startLine <= current.endLine + 2 {
        ExtendOk(current, c);
        GroupRunOk(rest[1..], Extend(current, c), done);
      } else {
        CloseOk(done, current);
        GroupRunOk(rest[1..], Single(c), done + [current]);
      }
    }
  }

  /** Closing a group that is in order keeps every closed group in order. */
  lemma CloseOk(done: seq<Group>, current: Group)
    requires GroupOk(current)
    requires forall k :: 0 <= k < |done| ==> GroupOk(done[k])
    ensures forall k :: 0 <= k < |done + [current]| ==> GroupOk((done + [current])[k])
  {
    forall k | 0 <= k < |done + [current]| ensures GroupOk((done + [current])[k]) {
      if k < |done| {
        assert (done + [current])[k] == done[k];
      }
    }
  }

  lemma GroupingOfSorted(sorted: seq<PersonaComment>)
    requires sorted != [] && SortedByLocation(sorted)
    ensures var gs := GroupRun(sorted[1..], Single(sorted[0]), []);
      Flatten(gs) == sorted &&
      (forall k :: 0 <= k < |gs| ==> GroupOk(gs[k])) &&
      Separated(gs)
  {
    var first := Single(sorted[0]);
    SortedTail(sorted);
    assert [] + [first] == [first];
    GroupRunFlatten(sorted[1..], first, []);
    GroupRunSeparated(sorted[1..], first, []);
    GroupRunOk(sorted[1..], first, []);
    HeadTail(sorted);
  }

  /** The comments after the first of a sorted list are sorted and start no earlier. */
  lemma SortedTail(s: seq<PersonaComment>)
    requires s != [] && SortedByLocation(s)
    ensures SortedByLocation(s[1..])
    ensures |s| > 1 ==> s[0].startLine <= s[1].startLine
  {
    assert |s| > 1 ==> LocationLe(s[0], s[1]);
  }

  /** Grouping is a partition of the stably sorted input: the groups' comment lists, concatenated,
      give exactly `sorted(comments)`. Each group spans from the smallest start to the largest end
      of its comments, every comment joined its group within 2 lines of the group's running end,
      and each group starts more than 2 lines after the previous one ends. */
  lemma {:induction false} GroupsWellFormed(comments: seq<PersonaComment>)
    ensures Groups(comments) == [] <==> comments == []
    ensures Flatten(Groups(comments)) == SortByLocation(comments)
    ensures multiset(Flatten(Groups(comments))) == multiset(comments)
    ensures forall k :: 0 <= k < |Groups(comments)| ==> GroupOk(Groups(comments)[k])
    ensures Separated(Groups(comments))
  {
    if comments != [] {
      var sorted := SortByLocation(comments);
      SortByLocationSpec(comments);
      GroupingOfSorted(sorted);
    }
  }

  /** `_group_comments_by_location`: sorts, then walks the comments once, extending the open
      group or closing it and opening a new one. */
  method GroupCommentsByLocation(comments: seq<PersonaComment>) returns (groups: seq<Group>)
    ensures groups == Groups(comments)
    ensures groups == [] <==> comments == []
    ensures Flatten(groups) == SortByLocation(comments)
    ensures Separated(groups) && forall k :: 0 <= k < |groups| ==> GroupOk(groups[k])
  {
    if comments == [] {
      return [];
    }
    var sorted := SortByLocation(comments);
    groups := [];
    var current := Single(sorted[0]);
    var i := 1;
    while i < |sorted|
      invariant 1 <= i <= |sorted|
      invariant GroupRun(sorted[i..], current, groups) == Groups(comments)
    {
      var c := sorted[i];
      assert sorted[i..][1..] == sorted[i + 1..];
      if c.startLine <= current.endLine + 2 {
        current := Group(current.startLine, Max(current.endLine, c.endLine), current.comments + [c]);
      } else {
        groups := groups + [current];
        current := Single(c);
      }
      i := i + 1;
    }
    groups := groups + [current];
    GroupsWellFormed(comments);
  }

  // ----- Fallback synthesis -----

  function SourceOf(c: PersonaComment): Source {
    Source(c.personaId, c.personaName, c.personaColor, c.content)
  }

  function SourcesOf(cs: seq<PersonaComment>): (r: seq<Source>)
    ensures |r| == |cs| && forall i :: 0 <= i < |cs| ==> r[i] == SourceOf(cs[i])
  {
    seq(|cs|, i requires 0 <= i < |cs| => SourceOf(cs[i]))
  }

  lemma SourcesOfConcat(a: seq<PersonaComment>, b: seq<PersonaComment>)
    ensures SourcesOf(a + b) == SourcesOf(a) + SourcesOf(b)
  {
  }

  function Contents(cs: seq<PersonaComment>): seq<string> {
    seq(|cs|, i requires 0 <= i < |cs| => cs[i].content)
  }

  /** The meta-comment the fallback makes of one group. */
  function FallbackComment(g: Group): MetaComment {
    MetaComment(Join(Contents(g.comments), " | "), g.startLine, g.endLine, SourcesOf(g.comments), "clarity", "medium")
  }

  /** The sources of a list of meta-comments, concatenated in order. */
  function AllSources(ms: seq<MetaComment>): seq<Source> {
    if ms == [] then [] else AllSources(ms[..|ms| - 1]) + ms[|ms| - 1].sources
  }

  lemma {:induction false} FallbackSourcesInOrder(groups: seq<Group>, metas: seq<MetaComment>)
    requires |metas| == |groups|
    requires forall k :: 0 <= k < |metas| ==> metas[k] == FallbackComment(groups[k])
    ensures AllSources(metas) == SourcesOf(Flatten(groups))
    decreases |groups|
  {
    if groups != [] {
      var n := |groups| - 1;
      FallbackSourcesInOrder(groups[..n], metas[..n]);
      SourcesOfConcat(Flatten(groups[..n]), groups[n].comments);
    }
  }

  /** `_fallback_synthesis`: one meta-comment per group, in group order. */
  method FallbackSynthesis(groups: seq<Group>) returns (metas: seq<MetaComment>)
    ensures |metas| == |groups|
    ensures forall k :: 0 <= k < |metas| ==>
      metas[k].startLine == groups[k].startLine && metas[k].endLine == groups[k].endLine &&
      metas[k].content == Join(Contents(groups[k].comments), " | ") &&
      metas[k].category == "clarity" && metas[k].priority == "medium" &&
      metas[k].sources == SourcesOf(groups[k].comments)
    ensures AllSources(metas) == SourcesOf(Flatten(groups))
  {
    metas := [];
    for k := 0 to |groups|
      invariant |metas| == k
      invariant forall j :: 0 <= j < k ==> metas[j] == FallbackComment(groups[j])
    {
      var g := groups[k];
      var merged := Join(Contents(g.comments), " | ");
      var sources := SourcesOf(g.comments);
      metas := metas + [MetaComment(merged, g.startLine, g.endLine, sources, "clarity", "medium")];
    }
    FallbackSourcesInOrder(groups, metas);
  }

  /** When synthesis falls back, every input comment becomes exactly one source: the sources,
      in order, are those of the comments sorted by location, so there are as many sources as
      comments. */
  lemma FallbackKeepsEveryComment(comments: seq<PersonaComment>, metas: seq<MetaComment>)
    requires |metas| == |Groups(comments)|
    requires forall k :: 0 <= k < |metas| ==> metas[k] == FallbackComment(Groups(comments)[k])
    ensures AllSources(metas) == SourcesOf(SortByLocation(comments))
    ensures |AllSources(metas)| == |comments|
  {
    GroupsWellFormed(comments);
    FallbackSourcesInOrder(Groups(comments), metas);
  }

  // ----- Fence stripping -----

  const Fence := "```"

  /** The reply with surrounding whitespace and a markdown code fence removed: a reply that
      starts with a fence loses its first line (or just the three backticks when it is one
      line) and everything from its last fence on. */
  function StripFences(reply: string): (r: string)
    ensures Unpadded(r)
    ensures !StartsWith(Strip(reply), Fence) ==> r == Strip(reply)
  {
    var t := Strip(reply);
    if !StartsWith(t, Fence) then t
    else
      var body := if '\n' in t then AfterFirst(t, "\n") else t[3..];
      Strip(BeforeLast(body, Fence))
  }

  lemma AfterOpeningLine(head: string, rest: string)
    requires '\n' !in head
    ensures AfterFirst(head + "\n" + rest, "\n") == rest
  {
    var t := head + "\n" + rest;
    assert OccursAt(t, "\n", |head|);
    forall p: nat | p < |head| ensures !OccursAt(t, "\n", p) {
      assert t[p] == head[p];
    }
    assert t[|head| + 1..] == rest;
  }

  lemma BeforeClosingFence(payload: string)
    ensures BeforeLast(payload + Fence, Fence) == payload
  {
    var body := payload + Fence;
    assert OccursAt(body, Fence, |payload|);
    assert body[..|payload|] == payload;
  }

  /** A fenced reply gives back its payload, stripped, whatever the payload holds. */
  lemma FenceRoundTrip(lang: string, payload: string)
    requires '\n' !in lang
    ensures StripFences(Fence + lang + "\n" + payload + Fence) == Strip(payload)
  {
    var reply := Fence + lang + "\n" + payload + Fence;
    FencedReplyShape(lang, payload);
    FencedReplyUnpadded(reply);
    BeforeClosingFence(payload);
    StripFencesOfFenced(reply);
  }

  /** A one-line fenced reply gives back what lies between its fences, stripped. */
  lemma OneLineFenceRoundTrip(payload: string)
    requires '\n' !in payload
    ensures StripFences(Fence + payload + Fence) == Strip(payload)
  {
    var reply := Fence + payload + Fence;
    OneLineFenceShape(payload);
    FencedReplyUnpadded(reply);
    StripFencesOfOneLine(reply);
    BeforeClosingFence(payload);
  }

  lemma OneLineFenceShape(payload: string)
    requires '\n' !in payload
    ensures var reply := Fence + payload + Fence;
      StartsWith(reply, Fence) && '\n' !in reply && reply[3..] == payload + Fence
  {
    var reply := Fence + payload + Fence;
    assert reply[..|Fence|] == Fence;
    forall i | 0 <= i < |reply| ensures reply[i] != '\n' {
      if 3 <= i < 3 + |payload| {
        assert reply[i] == payload[i - 3];
      }
    }
    assert reply[3..] == payload + Fence;
  }

  lemma StripFencesOfOneLine(t: string)
    requires Strip(t) == t && StartsWith(t, Fence) && '\n' !in t
    ensures StripFences(t) == Strip(BeforeLast(t[3..], Fence))
  {
  }

  lemma FencedReplyShape(lang: string, payload: string)
    requires '\n' !in lang
    ensures var reply := Fence + lang + "\n" + payload + Fence;
      StartsWith(reply, Fence) && '\n' in reply && AfterFirst(reply, "\n") == payload + Fence
  {
    var head := Fence + lang;
    var reply := head + "\n" + (payload + Fence);
    assert reply == Fence + lang + "\n" + payload + Fence;
    assert reply[..|head|] == head;
    assert reply[..3] == reply[..|head|][..3];
    assert reply[|head|] == '\n';
    assert forall i :: 0 <= i < |head| ==> head[i] == if i < 3 then '`' else lang[i - 3];
    AfterOpeningLine(head, payload + Fence);
  }

  lemma FencedReplyUnpadded(reply: string)
    requires |reply| >= 3 && reply[0] == '`' && reply[|reply| - 1] == '`'
    ensures Strip(reply) == reply
  {
    StripUnpadded(reply);
  }

  lemma StripFencesOfFenced(t: string)
    requires Strip(t) == t && StartsWith(t, Fence) && '\n' in t
    ensures StripFences(t) == Strip(BeforeLast(AfterFirst(t, "\n"), Fence))
  {
  }

  // ----- Citing sources -----

  /** The comments `synthesize` cites for a finding naming the personas `names`: those written
      by a named persona, in order, skipping any whose id was already cited (or is in `seen`). */
  function Matching(cs: seq<PersonaComment>, names: set<string>, seen: set<Option<string>>): (r: seq<PersonaComment>)
    ensures |r| <= |cs|
    ensures forall i :: 0 <= i < |r| ==> r[i].personaName in names && r[i].id !in seen
  {
    if cs == [] then []
    else if cs[0].personaName in names && cs[0].id !in seen then
      [cs[0]] + Matching(cs[1..], names, seen + {cs[0].id})
    else
      Matching(cs[1..], names, seen)
  }

  function Ids(cs: seq<PersonaComment>): set<Option<string>> {
    set c | c in cs :: c.id
  }

  /** Cited comments come from the list in its order, were written by a named persona, carry
      pairwise distinct ids, and every comment by a named persona has its id cited. */
  lemma {:induction false} MatchingSpec(cs: seq<PersonaComment>, names: set<string>, seen: set<Option<string>>)
    ensures var m := Matching(cs, names, seen);
      IsSubsequence(m, cs) &&
      (forall i :: 0 <= i < |m| ==> m[i].personaName in names && m[i].id !in seen) &&
      (forall i, j :: 0 <= i < j < |m| ==> m[i].id != m[j].id) &&
      (forall c :: c in cs && c.personaName in names ==> c.id in seen || c.id in Ids(m))
    decreases |cs|
  {
    if cs != [] {
      var c := cs[0];
      if c.personaName in names && c.id !in seen {
        MatchingSpec(cs[1..], names, seen + {c.id});
        var m := Matching(cs, names, seen);
        assert m[1..] == Matching(cs[1..], names, seen + {c.id});
        forall d | d in cs && d.personaName in names ensures d.id in seen || d.id in Ids(m) {
          if d != c {
            assert d in cs[1..];
            if d.id in Ids(m[1..]) {
              var e :| e in m[1..] && e.id == d.id;
              assert e in m;
            }
          }
        }
      } else {
        MatchingSpec(cs[1..], names, seen);
      }
    }
  }

  /** Of several comments by named personas that share an id, the first is the one cited:
      a named comment whose id is not in `seen` and differs from the ids of all earlier named
      comments is itself cited. */
  lemma {:induction false} MatchingCitesFirst(cs: seq<PersonaComment>, names: set<string>, seen: set<Option<string>>)
    ensures forall j ::
      (0 <= j < |cs| && cs[j].personaName in names && cs[j].id !in seen &&
       forall k :: 0 <= k < j && cs[k].personaName in names ==> cs[k].id != cs[j].id) ==>
      cs[j] in Matching(cs, names, seen)
    decreases |cs|
  {
    if cs != [] {
      var c := cs[0];
      var cited := c.personaName in names && c.id !in seen;
      var seen' := if cited then seen + {c.id} else seen;
      MatchingCitesFirst(cs[1..], names, seen');
      var m := Matching(cs, names, seen);
      var tail := Matching(cs[1..], names, seen');
      assert cited ==> m == [c] + tail;
      assert !cited ==> m == tail;
      forall j | 0 < j < |cs| && cs[j].personaName in names && cs[j].id !in seen &&
        (forall k :: 0 <= k < j && cs[k].personaName in names ==> cs[k].id != cs[j].id)
        ensures cs[j] in m
      {
        assert cs[j] == cs[1..][j - 1];
        forall k | 0 <= k < j - 1 && cs[1..][k].personaName in names
          ensures cs[1..][k].id != cs[1..][j - 1].id
        {
          assert cs[1..][k] == cs[k + 1];
        }
        assert cs[1..][j - 1].id !in seen';
      }
    }
  }

  /** One step of the matching loop: the comment at `i` is cited, with its id added to the
      seen set, or skipped. */
  lemma MatchingStep(all: seq<PersonaComment>, i: nat, names: set<string>, seen: set<Option<string>>)
    requires i < |all|
    ensures all[i].personaName in names && all[i].id !in seen ==>
      SourcesOf(Matching(all[i..], names, seen)) ==
      [SourceOf(all[i])] + SourcesOf(Matching(all[i + 1..], names, seen + {all[i].id}))
    ensures !(all[i].personaName in names && all[i].id !in seen) ==>
      SourcesOf(Matching(all[i..], names, seen)) == SourcesOf(Matching(all[i + 1..], names, seen))
  {
    var c := all[i];
    assert all[i..] == [c] + all[i + 1..];
    assert all[i..][1..] == all[i + 1..];
    if c.personaName in names && c.id !in seen {
      SourcesOfConcat([c], Matching(all[i + 1..], names, seen + {c.id}));
    }
  }

  /** The source-matching loop of `synthesize`, with its `seen_ids` set. */
  method MatchSources(all: seq<PersonaComment>, names: set<string>) returns (sources: seq<Source>)
    ensures sources == SourcesOf(Matching(all, names, {}))
  {
    sources := [];
    var seen: set<Option<string>> := {};
    assert all[0..] == all;
    for i := 0 to |all|
      invariant sources + SourcesOf(Matching(all[i..], names, seen)) == SourcesOf(Matching(all, names, {}))
    {
      var c := all[i];
      MatchingStep(all, i, names, seen);
      if c.personaName in names && c.id !in seen {
        ghost var rest := SourcesOf(Matching(all[i + 1..], names, seen + {c.id}));
        AppendAssoc(sources, [SourceOf(c)], rest);
        sources := sources + [SourceOf(c)];
        seen := seen + {c.id};
      }
    }
    assert all[|all|..] == [];
    assert sources + [] == sources;
  }

  // ----- Line range and defaults of a finding -----

  function MinFirst(rs: seq<(int, int)>): (m: int)
    requires rs != []
    ensures forall i :: 0 <= i < |rs| ==> m <= rs[i].0
    ensures exists i :: 0 <= i < |rs| && rs[i].0 == m
  {
    if |rs| == 1 then rs[0].0
    else
      var m := MinFirst(rs[1..]);
      assert forall i :: 1 <= i < |rs| ==> rs[1..][i - 1] == rs[i];
      if rs[0].0 <= m then rs[0].0 else m
  }

  function MaxSecond(rs: seq<(int, int)>): (m: int)
    requires rs != []
    ensures forall i :: 0 <= i < |rs| ==> rs[i].1 <= m
    ensures exists i :: 0 <= i < |rs| && rs[i].1 == m
  {
    if |rs| == 1 then rs[0].1
    else
      var m := MaxSecond(rs[1..]);
      assert forall i :: 1 <= i < |rs| ==> rs[1..][i - 1] == rs[i];
      if rs[0].1 >= m then rs[0].1 else m
  }

  /** The line range of a finding: its 1-based `line_ranges` turned 0-based (smallest start,
      largest end), else the range of the group it names (group 0 when it names none), else (0, 0). */
  function ResolveRange(f: Finding, groups: seq<Group>): (r: (int, int))
    ensures f.lineRanges != [] ==>
      (forall i :: 0 <= i < |f.lineRanges| ==> r.0 <= f.lineRanges[i].0 - 1 && f.lineRanges[i].1 - 1 <= r.1) &&
      (exists i :: 0 <= i < |f.lineRanges| && r.0 == f.lineRanges[i].0 - 1) &&
      (exists i :: 0 <= i < |f.lineRanges| && r.1 == f.lineRanges[i].1 - 1)
    ensures f.lineRanges == [] && 0 <= f.groupIndex.GetOr(0) < |groups| ==>
      r == (groups[f.groupIndex.GetOr(0)].startLine, groups[f.groupIndex.GetOr(0)].endLine)
    ensures f.lineRanges == [] && !(0 <= f.groupIndex.GetOr(0) < |groups|) ==> r == (0, 0)
  {
    if f.lineRanges != [] then
      (MinFirst(f.lineRanges) - 1, MaxSecond(f.lineRanges) - 1)
    else
      var g := f.groupIndex.GetOr(0);
      if 0 <= g < |groups| then (groups[g].startLine, groups[g].endLine) else (0, 0)
  }

  function SetOf(names: seq<string>): set<string> {
    set n | n in names
  }

  /** The meta-comment `synthesize` builds from one finding of the model: its sources, at most
      one per grouped comment, are all by personas the finding names. */
  function FromFinding(f: Finding, groups: seq<Group>): (m: MetaComment)
    ensures |m.sources| <= |Flatten(groups)|
    ensures forall k :: 0 <= k < |m.sources| ==> m.sources[k].personaName in f.contributingPersonas
  {
    var range := ResolveRange(f, groups);
    MetaComment(
      f.content.GetOr(""), range.0, range.1,
      SourcesOf(Matching(Flatten(groups), SetOf(f.contributingPersonas), {})),
      f.category.GetOr("clarity"), f.priority.GetOr("medium"))
  }

  /** The findings decoded from the reply, or `None` when there is no reply or it does not decode. */
  function Decoded(reply: Option<string>, decode: string -> Option<seq<Finding>>): Option<seq<Finding>> {
    if reply.None? then None else decode(StripFences(reply.value))
  }

  /** `synthesize`. `reply` is the model's text (`None` when the call raised) and `decode` is
      `json.loads`; `askedModel` says whether the model was called at all. */
  method Synthesize(comments: seq<PersonaComment>, reply: Option<string>, decode: string -> Option<seq<Finding>>)
    returns (metas: seq<MetaComment>, askedModel: bool)
    ensures askedModel <==> comments != []
    ensures comments == [] ==> metas == []
    ensures comments != [] && Decoded(reply, decode).None? ==>
      |metas| == |Groups(comments)| &&
      forall k :: 0 <= k < |metas| ==> metas[k] == FallbackComment(Groups(comments)[k])
    ensures comments != [] && Decoded(reply, decode).Some? ==>
      |metas| == |Decoded(reply, decode).value| &&
      forall k :: 0 <= k < |metas| ==> metas[k] == FromFinding(Decoded(reply, decode).value[k], Groups(comments))
  {
    if comments == [] {
      return [], false;
    }
    askedModel := true;
    var groups := GroupCommentsByLocation(comments);
    var parsed := if reply.None? then None else decode(StripFences(reply.value));
    if parsed.None? {
      metas := FallbackSynthesis(groups);
    } else {
      metas := MetaCommentsOf(parsed.value, groups);
    }
  }

  /** The part of `synthesize` after a successful decode: one meta-comment per finding, its
      sources looked up among all grouped comments. */
  method MetaCommentsOf(findings: seq<Finding>, groups: seq<Group>) returns (metas: seq<MetaComment>)
    ensures |metas| == |findings|
    ensures forall k :: 0 <= k < |metas| ==> metas[k] == FromFinding(findings[k], groups)
  {
    var allComments: seq<PersonaComment> := [];
    for k := 0 to |groups|
      invariant allComments == Flatten(groups[..k])
    {
      assert groups[..k + 1][..k] == groups[..k];
      allComments := allComments + groups[k].comments;
    }
    assert groups[..|groups|] == groups;
    metas := [];
    for k := 0 to |findings|
      invariant |metas| == k
      invariant forall j :: 0 <= j < k ==> metas[j] == FromFinding(findings[j], groups)
    {
      var f := findings[k];
      var sources := MatchSources(allComments, SetOf(f.contributingPersonas));
      var range := ResolveRange(f, groups);
      metas := metas + [MetaComment(f.content.GetOr(""), range.0, range.1, sources,
                                    f.category.GetOr("clarity"), f.priority.GetOr("medium"))];
    }
  }
}
