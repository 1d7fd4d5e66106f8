/** The deterministic parts of the review endpoints (`backend/api/reviews.py`): the title of an
    uploaded document, the `.md` check, the 404 and version hash of a review start, the
    server-sent-event stream and the websocket message sequence. The document store, the
    upload stream and the JSON encoding of a comment are not modelled: a stored document is
    given as a value and a comment stays a value. */
module ReviewsApi {
  import opened Wrappers
  import opened Text
  import opened ReviewService

  /* ---------- Title extraction: `^#\s+(.+)$` with `re.MULTILINE` ---------- */

  /** `^` under `re.MULTILINE`: the start of the text or just after a newline. */
  predicate LineStart(s: string, p: nat)
    requires p <= |s|
  {
    p == 0 || s[p - 1] == '\n'
  }

  /** Where a greedy `.+` started at `i` stops: the first newline at or after `i`, or the end. */
  function LineEnd(s: string, i: nat): (e: nat)
    requires i <= |s|
    ensures i <= e <= |s|
    ensures forall x :: i <= x < e ==> s[x] != '\n'
    ensures e == |s| || s[e] == '\n'
    decreases |s| - i
  {
    if i == |s| || s[i] == '\n' then i else LineEnd(s, i + 1)
  }

  /** Backtracking of `\s+` into `.+`: the last position in `lo..hi` at which `.` can match,
      that is, the largest one that is inside the text and is not a newline. */
  function LastDot(s: string, lo: nat, hi: nat): (r: Option<nat>)
    requires hi <= |s|
    ensures r.Some? ==> lo <= r.value <= hi && r.value < |s| && s[r.value] != '\n'
    ensures r.Some? ==> forall x :: r.value < x <= hi ==> x == |s| || s[x] == '\n'
    ensures r.None? ==> forall x :: lo <= x <= hi ==> x == |s| || s[x] == '\n'
    decreases hi
  {
    if hi < lo then None
    else if hi < |s| && s[hi] != '\n' then Some(hi)
    else if hi == lo then None
    else LastDot(s, lo, hi - 1)
  }

  /** The match of `^#\s+(.+)$` at position `p`, as its group 1. The greedy `\s+` (which may run
      over newlines) gives back characters until `.+` can match at least one; `.+` then runs to
      the end of its line, where `$` holds. */
  function HeadingAt(s: string, p: nat): (r: Option<string>)
    requires p <= |s|
    ensures r.Some? ==> r.value != [] && '\n' !in r.value
  {
    if !(p < |s| && s[p] == '#' && LineStart(s, p)) then None
    else
      var q := SkipSpaces(s, p + 1);
      if q == p + 1 then None
      else
        match LastDot(s, p + 2, q)
        case None => None
        case Some(v) => Some(s[v..LineEnd(s, v)])
  }

  /** `re.search`: the leftmost match at or after position `p`. */
  function FirstHeading(s: string, p: nat): (r: Option<string>)
    requires p <= |s|
    ensures r.Some? ==> r.value != [] && '\n' !in r.value
    decreases |s| - p
  {
    match HeadingAt(s, p)
    case Some(g) => Some(g)
    case None => if p < |s| then FirstHeading(s, p + 1) else None
  }

  /** The file name with `-` and `_` turned into spaces. */
  function Spaced(name: string): (r: string)
    ensures |r| == |name|
    ensures '-' !in r && '_' !in r
    ensures forall i :: 0 <= i < |r| ==> r[i] == (if name[i] == '-' || name[i] == '_' then ' ' else name[i])
  {
    ReplaceChar(ReplaceChar(name, '-', ' '), '_', ' ')
  }

  /** `extract_title_from_markdown`: the stripped text of the first level-1 heading; without
      one, a `.md` file name turned into words and title-cased; any other file name as is. */
  function ExtractTitle(content: string, filename: string): (r: string)
    ensures FirstHeading(content, 0).Some? ==> '\n' !in r && Unpadded(r)
    ensures FirstHeading(content, 0).None? && EndsWith(filename, ".md") ==>
      |r| == |filename| - 3 && '-' !in r && '_' !in r
    ensures FirstHeading(content, 0).None? && !EndsWith(filename, ".md") ==> r == filename
  {
    match FirstHeading(content, 0)
    case Some(g) => StripKeepsOut(g, '\n'); Strip(g)
    case None =>
      if EndsWith(filename, ".md") then
        var words := Spaced(filename[..|filename| - 3]);
        TitleKeepsOut(words, '-');
        TitleKeepsOut(words, '_');
        Title(words)
      else filename
  }

  /** A character absent from `s` is absent from `Strip(s)`, which is a slice of it. */
  lemma {:induction false} StripKeepsOut(s: string, c: char)
    requires c !in s
    ensures c !in Strip(s)
    decreases |s|
  {
    if s != [] && IsSpace(s[0]) {
      StripKeepsOut(s[1..], c);
    } else if s != [] && IsSpace(s[|s| - 1]) {
      StripKeepsOut(s[..|s| - 1], c);
    }
  }

  /** Title-casing leaves every character that is not a letter alone. */
  lemma TitleKeepsOut(s: string, c: char)
    requires c !in s && !IsAsciiLetter(c)
    ensures c !in Title(s)
  {
    forall i | 0 <= i < |s| ensures Title(s)[i] != c {
      TitleFromAt(s, false, i);
    }
  }

  /** Positions holding no `#` cannot start a heading, so the search moves past them. */
  lemma {:induction false} FirstHeadingSkip(s: string, p: nat, k: nat)
    requires p <= k <= |s|
    requires forall x :: p <= x < k ==> s[x] != '#'
    ensures FirstHeading(s, p) == FirstHeading(s, k)
    decreases k - p
  {
    if p < k {
      NoHashAt(s, p);
      FirstHeadingSkip(s, p + 1, k);
    }
  }

  /** A position that does not hold `#` starts no heading. */
  lemma NoHashAt(s: string, p: nat)
    requires p < |s| && s[p] != '#'
    ensures HeadingAt(s, p).None?
  {
  }

  /** Text without a `#` has no heading, so the title falls back to the file name. */
  lemma NoHashNoHeading(content: string, filename: string)
    requires '#' !in content
    ensures FirstHeading(content, 0).None?
    ensures ExtractTitle(content, filename) ==
      if EndsWith(filename, ".md") then Title(Spaced(filename[..|filename| - 3])) else filename
  {
    FirstHeadingSkip(content, 0, |content|);
  }

  /** A `#` that is not followed by whitespace (`##`, `#text`, or `#` at the very end) does not
      start a heading. */
  lemma HashNeedsSpace(s: string, p: nat)
    requires p < |s| && (p + 1 == |s| || !IsSpace(s[p + 1]))
    ensures HeadingAt(s, p).None?
  {
  }

  /** The match at `p` when `#` is followed by whitespace up to `q` and a line's text runs
      from the non-whitespace character at `q` to `e`. */
  lemma HeadingAtLine(s: string, p: nat, q: nat, e: nat)
    requires p + 1 < q < |s| && q <= e <= |s|
    requires s[p] == '#' && LineStart(s, p)
    requires forall x :: p + 1 <= x < q ==> IsSpace(s[x])
    requires !IsSpace(s[q])
    requires forall x :: q <= x < e ==> s[x] != '\n'
    requires e == |s| || s[e] == '\n'
    ensures HeadingAt(s, p) == Some(s[q..e])
  {
    SkipSpacesAt(s, p + 1, q);
    assert s[q] != '\n';
    assert LastDot(s, p + 2, q) == Some(q);
    LineEndAt(s, q, e);
  }

  /** The heading round trip: after lines that hold no `#`, a line `#`, then any run of
      whitespace (newlines included), then a title that does not start with whitespace and
      ends its line, gives that title, stripped, whatever the file name. */
  lemma HeadingTitle(pre: string, gap: string, title: string, rest: string, filename: string)
    requires '#' !in pre && (pre == [] || pre[|pre| - 1] == '\n')
    requires gap != [] && AllSpace(gap)
    requires title != [] && '\n' !in title && !IsSpace(title[0])
    requires rest == [] || rest[0] == '\n'
    ensures ExtractTitle(pre + "#" + gap + title + rest, filename) == Strip(title)
  {
    FirstHeadingOf(pre, gap, title, rest);
  }

  lemma FirstHeadingOf(pre: string, gap: string, title: string, rest: string)
    requires '#' !in pre && (pre == [] || pre[|pre| - 1] == '\n')
    requires gap != [] && AllSpace(gap)
    requires title != [] && '\n' !in title && !IsSpace(title[0])
    requires rest == [] || rest[0] == '\n'
    ensures FirstHeading(pre + "#" + gap + title + rest, 0) == Some(title)
  {
    var s := pre + "#" + gap + title + rest;
    var q := |pre| + 1 + |gap|;
    HeadingLayout(pre, gap, title, rest);
    FirstHeadingLine(s, |pre|, q, q + |title|);
  }

  /** Where the parts of a heading line sit in the text they make up. */
  lemma HeadingLayout(pre: string, gap: string, title: string, rest: string)
    requires '#' !in pre && (pre == [] || pre[|pre| - 1] == '\n')
    requires gap != [] && AllSpace(gap)
    requires title != [] && '\n' !in title && !IsSpace(title[0])
    requires rest == [] || rest[0] == '\n'
    ensures var s := pre + "#" + gap + title + rest;
      var p := |pre|;
      var q := p + 1 + |gap|;
      var e := q + |title|;
      && p + 1 < q < |s| && q <= e <= |s|
      && (forall x :: 0 <= x < p ==> s[x] != '#')
      && s[p] == '#' && LineStart(s, p)
      && (forall x :: p + 1 <= x < q ==> IsSpace(s[x]))
      && !IsSpace(s[q])
      && (forall x :: q <= x < e ==> s[x] != '\n')
      && (e == |s| || s[e] == '\n')
      && s[q..e] == title
  {
    var a := pre + "#";
    var b := a + gap;
    var c := b + title;
    var s := c + rest;
    var p := |pre|;
    var q := |b|;
    var e := |c|;
    forall x | 0 <= x < p ensures s[x] != '#' {
      assert s[x] == c[x] == b[x] == a[x] == pre[x];
    }
    assert s[p] == c[p] == b[p] == a[p];
    if p > 0 { assert s[p - 1] == c[p - 1] == b[p - 1] == a[p - 1] == pre[p - 1]; }
    forall x | p + 1 <= x < q ensures IsSpace(s[x]) {
      assert s[x] == c[x] == b[x] == gap[x - |a|];
    }
    forall x | q <= x < e ensures s[x] != '\n' {
      assert s[x] == c[x] == title[x - q];
    }
    assert s[q] == c[q] == title[0];
    if e < |s| { assert s[e] == rest[0]; }
    assert s[q..e] == c[q..e] == title;
  }

  /** A heading line after text with no `#` is the first heading. */
  lemma FirstHeadingLine(s: string, p: nat, q: nat, e: nat)
    requires p + 1 < q < |s| && q <= e <= |s|
    requires forall x :: 0 <= x < p ==> s[x] != '#'
    requires s[p] == '#' && LineStart(s, p)
    requires forall x :: p + 1 <= x < q ==> IsSpace(s[x])
    requires !IsSpace(s[q])
    requires forall x :: q <= x < e ==> s[x] != '\n'
    requires e == |s| || s[e] == '\n'
    ensures FirstHeading(s, 0) == Some(s[q..e])
  {
    FirstHeadingSkip(s, 0, p);
    HeadingAtLine(s, p, q, e);
  }

  /** `LineEnd` stops at the first newline or the end. */
  lemma {:induction false} LineEndAt(s: string, i: nat, e: nat)
    requires i <= e <= |s| && (e == |s| || s[e] == '\n')
    requires forall x :: i <= x < e ==> s[x] != '\n'
    ensures LineEnd(s, i) == e
    decreases e - i
  {
    if i < e {
      LineEndAt(s, i + 1, e);
    }
  }

  /** With only whitespace after `#`, `\s+` gives back one space to `.+`, so the title is empty. */
  lemma BlankHeading()
    ensures ExtractTitle("#  ", "notes.md") == ""
  {
    var s := "#  ";
    assert SkipSpaces(s, 1) == 3;
    assert LastDot(s, 2, 3) == Some(2);
    assert LineEnd(s, 2) == 3;
    assert s[2..3] == " ";
    assert HeadingAt(s, 0) == Some(" ");
  }

  /* ---------- Uploads ---------- */

  datatype Upload =
    | Rejected(status: int, detail: string)
    | Created(title: string, content: string, description: string, message: string)

  /** `upload_document`: only `.md` files are accepted (400 otherwise, before the content is
      read); the title comes from the content or the file name. */
  function UploadDocument(filename: string, content: string): (r: Upload)
    ensures r.Rejected? <==> !EndsWith(filename, ".md")
    ensures r.Rejected? ==> r.status == 400 && r.detail == "Only .md files are supported"
    ensures r.Created? ==>
      r.content == content && r.title == ExtractTitle(content, filename) && r.description == "Uploaded from " + filename
  {
    if !EndsWith(filename, ".md") then Rejected(400, "Only .md files are supported")
    else Created(ExtractTitle(content, filename), content, "Uploaded from " + filename, "Document uploaded successfully")
  }

  /** `upload_raw`: no file-name check at all; a missing file name is `untitled.md`. */
  function UploadRaw(content: string, filename: Option<string>): (r: Upload)
    ensures r.Created? && r.content == content && r.description == "Uploaded via raw content"
    ensures r.title == ExtractTitle(content, filename.GetOr("untitled.md"))
  {
    Created(ExtractTitle(content, filename.GetOr("untitled.md")), content, "Uploaded via raw content",
            "Document created successfully")
  }

  /** A raw upload without a heading or a file name is titled `Untitled`. */
  lemma UntitledRaw(content: string)
    requires '#' !in content
    ensures UploadRaw(content, None).title == "Untitled"
  {
    NoHashNoHeading(content, "untitled.md");
    assert EndsWith("untitled.md", ".md");
    UntitledWords();
  }

  lemma TitleUntitled()
    ensures Title("untitled") == "Untitled"
  {
    var s := "untitled";
    TitleAt(s);
    assert Title(s)[0] == 'U';
    forall i | 1 <= i < |s| ensures Title(s)[i] == s[i] {
      assert IsAsciiLetter(s[i - 1]) && 'a' <= s[i] <= 'z';
    }
  }

  /** The fallback file name `untitled.md` turns into the words `Untitled`. */
  lemma UntitledWords()
    ensures Title(Spaced("untitled.md"[..8])) == "Untitled"
  {
    assert "untitled.md"[..8] == "untitled";
    assert Spaced("untitled") == "untitled";
    TitleUntitled();
  }

  /* ---------- Review start and the event stream ---------- */

  /** What the document service knows of a document: its content and the commit hashes of
      its versions, newest first. */
  datatype StoredDoc = StoredDoc(content: string, versions: seq<string>)

  /** The version a review is attached to: the newest commit, or `HEAD` when there is none. */
  function VersionHash(doc: StoredDoc): (h: string)
    ensures doc.versions != [] ==> h == doc.versions[0]
    ensures doc.versions == [] ==> h == "HEAD"
  {
    if doc.versions != [] then doc.versions[0] else "HEAD"
  }

  /** One server-sent event: a comment, or the closing `{"done": true}`. */
  datatype Event = CommentEvent(comment: Comment) | DoneEvent

  /** The wire form of an event carrying `payload`. */
  function SseFrame(payload: string): (f: string)
    ensures |f| == |payload| + 8
    ensures StartsWith(f, "data: ") && EndsWith(f, "\n\n")
    ensures f[6..|f| - 2] == payload
  {
    "data: " + payload + "\n\n"
  }

  const DoneFrame := SseFrame("{\"done\": true}")

  /** The events report `comments` in order, followed by the done event unless a model call
      failed. */
  predicate Emits(events: seq<Event>, comments: seq<Comment>, failed: bool) {
    |events| == |comments| + (if failed then 0 else 1) &&
    (forall i :: 0 <= i < |comments| ==> events[i] == CommentEvent(comments[i])) &&
    (!failed ==> events[|events| - 1] == DoneEvent)
  }

  /** `generate`: one event per comment in the order the review yields them, then the done
      event; a failed model call ends the stream before the done event. */
  method Generate(comments: seq<Comment>, failed: bool) returns (events: seq<Event>)
    ensures Emits(events, comments, failed)
    ensures forall i :: 0 <= i < |events| && events[i] == DoneEvent ==> i == |events| - 1
  {
    events := [];
    for i := 0 to |comments|
      invariant |events| == i
      invariant forall k :: 0 <= k < i ==> events[k] == CommentEvent(comments[k])
    {
      events := events + [CommentEvent(comments[i])];
    }
    if !failed {
      events := events + [DoneEvent];
    }
  }

  datatype ReviewStart =
    | NotFound(status: int, detail: string)
    | Streaming(versionHash: string, events: seq<Event>)

  /** `start_review`: 404 for an unknown document; otherwise the review of its content, under
      its version hash, as a stream of events. The model replies are given, one per selected
      persona. */
  method StartReview(docs: map<string, StoredDoc>, docId: string, personaIds: Option<seq<string>>,
                     replies: seq<Option<string>>)
    returns (r: ReviewStart)
    requires |replies| == |SelectPersonas(personaIds)|
    ensures r.NotFound? <==> docId !in docs
    ensures r.NotFound? ==> r.status == 404 && r.detail == "Document not found"
    ensures r.Streaming? ==> r.versionHash == VersionHash(docs[docId])
    ensures r.Streaming? ==> exists paras ::
      IsParagraphing(paras, Split(docs[docId].content, '\n')) &&
      var run := Stream(SelectPersonas(personaIds), replies, paras, docId, r.versionHash);
      Emits(r.events, run.0, run.1)
  {
    if docId !in docs {
      return NotFound(404, "Document not found");
    }
    var doc := docs[docId];
    var versionHash := VersionHash(doc);
    var comments, failed, paras := ReviewDocument(docId, doc.content, versionHash, personaIds, replies);
    var events := Generate(comments, failed);
    assert IsParagraphing(paras, Split(doc.content, '\n')) && Emits(events, comments, failed);
    r := Streaming(versionHash, events);
  }

  /* ---------- The websocket ---------- */

  datatype WsMessage =
    | ErrorMessage(error: string)
    | StartedMessage(personas: nat)
    | CommentMessage(comment: Comment)
    | DoneMessage

  /** The persona count announced when a websocket review starts: the number of ids the
      client asked for, known or not, or the size of the registry when it asked for none. */
  function StartedCount(personaIds: Option<seq<string>>): (n: nat)
    ensures personaIds.Some? && personaIds.value != [] ==> n == |personaIds.value|
    ensures personaIds.None? || personaIds.value == [] ==> n == 4
  {
    if personaIds.Some? && personaIds.value != [] then |personaIds.value| else |ListPersonas()|
  }

  /** The announced count is never below the number of personas that actually review. */
  lemma StartedCountCovers(personaIds: Option<seq<string>>)
    ensures StartedCount(personaIds) >= |SelectPersonas(personaIds)|
  {
    if personaIds.None? || personaIds.value == [] {
      SelectAll(DefaultPersonas);
    }
  }

  /** The announced count can exceed the reviewing personas: an unknown id is counted but
      selects nobody. */
  lemma StartedCountOvercounts(id: string)
    requires GetPersona(id).None?
    ensures StartedCount(Some([id])) == 1 && SelectPersonas(Some([id])) == []
  {
    assert [id][1..] == [];
    assert Known(DefaultPersonas, [id]) == [];
  }

  /** `review_websocket`: an error for an unknown document; otherwise a start message, one
      message per comment in order, then the done message, or the error of a failed call in
      its place. `failure` is the text of that error. */
  method ReviewWebsocket(docs: map<string, StoredDoc>, docId: string, personaIds: Option<seq<string>>,
                         replies: seq<Option<string>>, failure: string)
    returns (messages: seq<WsMessage>)
    requires |replies| == |SelectPersonas(personaIds)|
    ensures docId !in docs ==> messages == [ErrorMessage("Document not found")]
    ensures docId in docs ==> exists paras ::
      IsParagraphing(paras, Split(docs[docId].content, '\n')) &&
      var (comments, failed) := Stream(SelectPersonas(personaIds), replies, paras, docId, VersionHash(docs[docId]));
      messages == [StartedMessage(StartedCount(personaIds))] + CommentMessages(comments) +
        [if failed then ErrorMessage(failure) else DoneMessage]
  {
    if docId !in docs {
      return [ErrorMessage("Document not found")];
    }
    var doc := docs[docId];
    var versionHash := VersionHash(doc);
    var comments, failed, paras := ReviewDocument(docId, doc.content, versionHash, personaIds, replies);
    messages := SendReview(StartedCount(personaIds), comments, failed, failure);
  }

  /** The messages of a review that started: the start message, the comments one by one,
      then the closing message. */
  method SendReview(count: nat, comments: seq<Comment>, failed: bool, failure: string) returns (messages: seq<WsMessage>)
    ensures messages == [StartedMessage(count)] + CommentMessages(comments) +
      [if failed then ErrorMessage(failure) else DoneMessage]
  {
    messages := [StartedMessage(count)];
    for i := 0 to |comments|
      invariant messages == [StartedMessage(count)] + CommentMessages(comments[..i])
    {
      CommentMessagesSnoc(comments[..i], comments[i]);
      assert comments[..i + 1] == comments[..i] + [comments[i]];
      messages := messages + [CommentMessage(comments[i])];
    }
    assert comments[..|comments|] == comments;
    messages := messages + [if failed then ErrorMessage(failure) else DoneMessage];
  }

  /** One message per comment, in order. */
  function CommentMessages(comments: seq<Comment>): (r: seq<WsMessage>)
    ensures |r| == |comments|
    ensures forall i :: 0 <= i < |r| ==> r[i] == CommentMessage(comments[i])
  {
    if comments == [] then [] else [CommentMessage(comments[0])] + CommentMessages(comments[1..])
  }

  lemma {:induction false} CommentMessagesSnoc(comments: seq<Comment>, c: Comment)
    ensures CommentMessages(comments + [c]) == CommentMessages(comments) + [CommentMessage(c)]
    decreases |comments|
  {
    if comments == [] {
      assert comments + [c] == [c];
    } else {
      CommentMessagesSnoc(comments[1..], c);
      assert (comments + [c])[1..] == comments[1..] + [c];
    }
  }

  /** The websocket closes a review with exactly one final message, done or error, and every
      message between the start and it is a comment. */
  lemma WebsocketShape(messages: seq<WsMessage>, comments: seq<Comment>, failed: bool, failure: string, n: nat)
    requires messages == [StartedMessage(n)] + CommentMessages(comments) + [if failed then ErrorMessage(failure) else DoneMessage]
    ensures forall i :: 0 < i < |messages| - 1 ==> messages[i].CommentMessage?
    ensures forall i :: 0 <= i < |messages| && (messages[i].DoneMessage? || messages[i].ErrorMessage?) ==> i == |messages| - 1
    ensures messages[|messages| - 1].DoneMessage? <==> !failed
  {
    assert forall i :: 0 < i < |messages| - 1 ==> messages[i] == CommentMessages(comments)[i - 1];
  }
}
