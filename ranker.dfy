/**
 * `SemanticRanker` and `SectionProcessor`: ordering items by their similarity to the reader's
 * context, choosing the text each heading is ranked by, and cutting a section's content into
 * paragraph chunks.
 *
 * The embedding model is an `Embedder`: a similarity score between the context sentence and an
 * item's text (what `encode` followed by `cosine_similarity` computes), and whether encoding a batch
 * of texts raises.
 */
module Ranker {
  import opened Collections
  import opened Text
  import opened Sorting
  import opened Extractor
  import Config

  datatype Embedder = Embedder(similarity: (string, string) -> real, fails: seq<string> -> bool)

  /** The sentence `create_context_embedding` encodes. */
  function ContextString(persona: string, job: string): (r: string)
    ensures r == "As a " + persona + ", " + job
    ensures StartsWith(r, "As a ")
  {
    var r := "As a " + persona + ", " + job;
    StartsWithPrefix("As a ", persona + ", " + job);
    assert r == "As a " + (persona + ", " + job);
    r
  }

  lemma {:induction false} StartsWithPrefix(p: string, s: string)
    ensures StartsWith(p + s, p)
  {
    if p != [] {
      assert (p + s)[1..] == p[1..] + s;
      StartsWithPrefix(p[1..], s);
    }
  }

  function ScoreOf<T>(p: (T, real)): real { p.1 }

  /** Every item paired with the similarity of its text to the query. */
  function Scored<T>(query: string, items: seq<T>, text: T -> string, emb: Embedder): (r: seq<(T, real)>)
    ensures |r| == |items|
    ensures forall i :: 0 <= i < |r| ==> r[i].0 == items[i] && r[i].1 == emb.similarity(query, text(items[i]))
  {
    seq(|items|, i requires 0 <= i < |items| => (items[i], emb.similarity(query, text(items[i]))))
  }

  /** The batch of texts `rank_items` encodes, one per item. */
  function Texts<T>(items: seq<T>, text: T -> string): (r: seq<string>)
    ensures |r| == |items|
    ensures forall i :: 0 <= i < |r| ==> r[i] == text(items[i])
  {
    seq(|items|, i requires 0 <= i < |items| => text(items[i]))
  }

  /**
   * `rank_items`: no items give no ranking and encode nothing; otherwise the items are encoded as one
   * batch (`None` when that raises) and returned with their scores, best first.
   */
  function RankItems<T(==)>(query: string, items: seq<T>, text: T -> string, emb: Embedder): (r: Option<seq<(T, real)>>)
    ensures items == [] ==> r == Some([])
    ensures r.None? <==> items != [] && emb.fails(Texts(items, text))
    ensures r.Some? ==> |r.value| == |items|
    ensures r.Some? ==> multiset(r.value) == multiset(Scored(query, items, text, emb))
    ensures r.Some? ==> NonIncreasing(r.value, ScoreOf)
  {
    if items == [] then Some([])
    else if emb.fails(Texts(items, text)) then None
    else Some(SortByKeyDesc(Scored(query, items, text, emb), ScoreOf))
  }

  /**
   * Every ranked pair is an input item with its own score, and every input item is ranked as often
   * as it occurs in the input.
   */
  lemma RankedPairsAreScoredItems<T>(query: string, items: seq<T>, text: T -> string, emb: Embedder)
    requires RankItems(query, items, text, emb).Some?
    ensures var r := RankItems(query, items, text, emb).value;
      && (forall p :: p in r ==> p.0 in items && p.1 == emb.similarity(query, text(p.0)))
      && (forall x :: x in items ==> (x, emb.similarity(query, text(x))) in r)
  {
    var r := RankItems(query, items, text, emb).value;
    var s := Scored(query, items, text, emb);
    forall p | p in r ensures p.0 in items && p.1 == emb.similarity(query, text(p.0)) {
      assert p in multiset(s);
      var i :| 0 <= i < |s| && s[i] == p;
    }
    forall x | x in items ensures (x, emb.similarity(query, text(x))) in r {
      var i :| 0 <= i < |items| && items[i] == x;
      assert s[i] in multiset(r);
    }
  }

  /** The text a heading is ranked by: its own text, a space, and the first 50 characters of its start page. */
  function HeadingText(pdf: PdfFile): (f: Heading -> string)
  {
    (h: Heading) => h.text + " " + Take(SectionText(pdf, h.page, Some(h.page)), 50)
  }

  /** The projection reads only the heading's start page, however far the section extends. */
  lemma HeadingTextReadsStartPage(pdf: PdfFile, h: Heading)
    ensures pdf.Readable? && 1 <= h.page <= |pdf.pages| ==>
      HeadingText(pdf)(h) == h.text + " " + Take(pdf.pages[h.page - 1], 50)
    ensures !(pdf.Readable? && 1 <= h.page <= |pdf.pages|) ==> HeadingText(pdf)(h) == h.text + " "
    ensures |HeadingText(pdf)(h)| <= |h.text| + 51
  {
    if pdf.Readable? && 1 <= h.page <= |pdf.pages| {
      SectionTextSinglePage(pdf.pages, h.page);
    } else if pdf.Readable? {
      SectionTextEmpty(pdf, h.page, h.page);
    }
  }

  /**
   * `process_document`: the meaningful headings of the outline, ranked by the projection above; a
   * failed encoding gives no sections.
   */
  function ProcessDocument(pdf: PdfFile, outline: Outline, persona: string, job: string, emb: Embedder): (r: seq<(Heading, real)>)
    ensures var hs := MeaningfulHeadings(outline, TotalPages(pdf));
      && (r == [] <==> emb.fails(Texts(hs, HeadingText(pdf))))
      && (r != [] ==> multiset(r) == multiset(Scored(ContextString(persona, job), hs, HeadingText(pdf), emb)))
      && NonIncreasing(r, ScoreOf)
  {
    var headings := MeaningfulHeadings(outline, TotalPages(pdf));
    match RankItems(ContextString(persona, job), headings, HeadingText(pdf), emb)
    case None => []
    case Some(ranked) => ranked
  }

  // ---------------------------------------------------------------------------------------------
  // Paragraph segmentation of `extract_subsections`

  /** How many digits `s` starts with. */
  function LeadingDigits(s: string): (n: nat)
    ensures n <= |s|
    ensures forall i :: 0 <= i < n ==> IsDigit(s[i])
    ensures n < |s| ==> !IsDigit(s[n])
  {
    if s != [] && IsDigit(s[0]) then 1 + LeadingDigits(s[1..]) else 0
  }

  /** `re.match(r'^(\d+\.\s|•\s|\*\s|-)', s)`, the bullet spelled as in the source. */
  predicate IsListMarker(s: string)
  {
    var n := LeadingDigits(s);
    || (n >= 1 && n + 1 < |s| && s[n] == '.' && IsSpace(s[n + 1]))
    || (StartsWith(s, Bullet) && |Bullet| < |s| && IsSpace(s[|Bullet|]))
    || (|s| >= 2 && s[0] == '*' && IsSpace(s[1]))
    || (|s| >= 1 && s[0] == '-')
  }

  /** The paragraphs closed so far and the one being built (`current_para`). */
  datatype SegState = SegState(paragraphs: seq<string>, current: string)

  const Start := SegState([], "")

  /** The paragraph length past which the next line starts a new paragraph. */
  const SoftParagraphLimit := 200

  /** A non-blank stripped line opens a new paragraph. */
  predicate StartsParagraph(stripped: string, current: string)
  {
    IsListMarker(stripped) || IsUpperLine(stripped) || (current != "" && |current| > SoftParagraphLimit)
  }

  /** One iteration of the line loop. */
  function Step(st: SegState, line: string): SegState
  {
    var stripped := Strip(line);
    if stripped == "" then
      (if st.current != "" then SegState(st.paragraphs + [st.current], "") else st)
    else if StartsParagraph(stripped, st.current) then
      SegState(if st.current != "" then st.paragraphs + [st.current] else st.paragraphs, stripped)
    else
      SegState(st.paragraphs, if st.current != "" then st.current + " " + stripped else stripped)
  }

  /** The state after the loop has seen `lines`. */
  function Feed(st: SegState, lines: seq<string>): SegState
  {
    if lines == [] then st else Step(Feed(st, lines[..|lines| - 1]), lines[|lines| - 1])
  }

  /** The paragraphs once the last one is closed. */
  function Flush(st: SegState): seq<string>
  {
    if st.current != "" then st.paragraphs + [st.current] else st.paragraphs
  }

  /** The paragraphs `extract_subsections` builds from `content`, before filtering. */
  function Paragraphs(content: string): seq<string>
  {
    Flush(Feed(Start, SplitLines(content)))
  }

  /** The stripped lines that are not blank, in order. */
  function NonBlank(lines: seq<string>): (r: seq<string>)
    ensures forall i :: 0 <= i < |r| ==> r[i] != "" && IsStripped(r[i])
  {
    if lines == [] then []
    else
      var init := NonBlank(lines[..|lines| - 1]);
      var s := Strip(lines[|lines| - 1]);
      if s == "" then init else init + [s]
  }

  predicate WellFormed(st: SegState)
  {
    AllStripped(st.paragraphs) && IsStripped(st.current)
  }

  /** Joining a stripped, non-empty paragraph and line with a space keeps both ends non-blank. */
  lemma GluedStripped(c: string, s: string)
    requires c != "" && IsStripped(c) && s != "" && IsStripped(s)
    ensures IsStripped(c + " " + s)
  {
    var g := c + " " + s;
    assert g[0] == c[0];
    assert g[|g| - 1] == s[|s| - 1];
  }

  /** Closed paragraphs are non-empty and stripped. */
  predicate AllStripped(ps: seq<string>)
  {
    forall i :: 0 <= i < |ps| ==> ps[i] != "" && IsStripped(ps[i])
  }

  lemma CloseParagraph(ps: seq<string>, c: string)
    requires AllStripped(ps) && c != "" && IsStripped(c)
    ensures AllStripped(ps + [c])
  {
    forall i | 0 <= i < |ps + [c]| ensures (ps + [c])[i] != "" && IsStripped((ps + [c])[i]) {
      if i < |ps| {
        assert (ps + [c])[i] == ps[i];
      } else {
        assert (ps + [c])[i] == c;
      }
    }
  }

  /** One step keeps every paragraph non-empty and stripped. */
  lemma StepWellFormed(st: SegState, line: string)
    requires WellFormed(st)
    ensures WellFormed(Step(st, line))
  {
    var s := Strip(line);
    var next := Step(st, line);
    if s == "" || StartsParagraph(s, st.current) {
      if st.current != "" {
        CloseParagraph(st.paragraphs, st.current);
        assert next.paragraphs == st.paragraphs + [st.current];
      } else {
        assert next.paragraphs == st.paragraphs;
      }
    } else if st.current != "" {
      GluedStripped(st.current, s);
      assert next == SegState(st.paragraphs, st.current + " " + s);
    } else {
      assert next == SegState(st.paragraphs, s);
    }
  }

  /** One step adds the line's stripped text, if any, to the space-joined paragraphs. */
  lemma StepKeepsText(st: SegState, line: string)
    requires WellFormed(st)
    ensures var s := Strip(line);
      Join(" ", Flush(Step(st, line))) == Join(" ", Flush(st) + (if s == "" then [] else [s]))
  {
    var s := Strip(line);
    var next := Step(st, line);
    if s == "" {
      assert Flush(st) + [] == Flush(st);
    } else if StartsParagraph(s, st.current) || st.current == "" {
      assert Flush(next) == Flush(st) + [s];
    } else {
      var p := st.paragraphs;
      var c := st.current;
      assert Flush(next) == p + [c + " " + s];
      assert Flush(st) + [s] == (p + [c]) + [s];
      JoinAppend(" ", p, c + " " + s);
      JoinAppend(" ", p + [c], s);
      JoinAppend(" ", p, c);
      if p != [] {
        Regroup(Join(" ", p), c, s);
      }
    }
  }

  lemma Regroup(a: string, c: string, s: string)
    ensures a + " " + (c + " " + s) == (a + " " + c) + " " + s
  {
  }

  /** The line loop keeps every closed paragraph non-empty and stripped. */
  lemma {:induction false} FeedWellFormed(lines: seq<string>)
    ensures WellFormed(Feed(Start, lines))
  {
    if lines != [] {
      FeedWellFormed(lines[..|lines| - 1]);
      StepWellFormed(Feed(Start, lines[..|lines| - 1]), lines[|lines| - 1]);
    }
  }

  /** Joining the paragraphs with spaces gives exactly the non-blank stripped lines joined with spaces. */
  lemma {:induction false} FeedKeepsText(lines: seq<string>)
    ensures Join(" ", Flush(Feed(Start, lines))) == Join(" ", NonBlank(lines))
  {
    if lines != [] {
      var init := lines[..|lines| - 1];
      var line := lines[|lines| - 1];
      FeedKeepsText(init);
      FeedWellFormed(init);
      var st := Feed(Start, init);
      StepKeepsText(st, line);
      var s := Strip(line);
      var tail: seq<string> := if s == "" then [] else [s];
      assert NonBlank(lines) == NonBlank(init) + tail;
      FlushStripped(st);
      JoinSame(Flush(st), NonBlank(init), tail);
    }
  }

  lemma FlushStripped(st: SegState)
    requires WellFormed(st)
    ensures AllStripped(Flush(st))
  {
    if st.current != "" {
      CloseParagraph(st.paragraphs, st.current);
    }
  }

  /** Lists with the same space-joined text keep it equal after the same strings are appended. */
  lemma JoinSame(a: seq<string>, b: seq<string>, tail: seq<string>)
    requires Join(" ", a) == Join(" ", b)
    requires |tail| <= 1 && AllStripped(a)
    requires forall i :: 0 <= i < |b| ==> b[i] != ""
    ensures Join(" ", a + tail) == Join(" ", b + tail)
  {
    if |tail| == 1 {
      JoinEmpty(" ", a);
      JoinEmpty(" ", b);
      assert a == [] <==> b == [];
      JoinAppend(" ", a, tail[0]);
      JoinAppend(" ", b, tail[0]);
      assert tail == [tail[0]];
    } else {
      assert a + tail == a && b + tail == b;
    }
  }

  /** Each paragraph is non-empty with no whitespace at either end. */
  lemma ParagraphsAreStripped(content: string)
    ensures AllStripped(Paragraphs(content))
  {
    FeedWellFormed(SplitLines(content));
    FlushStripped(Feed(Start, SplitLines(content)));
  }

  /** No text is invented or lost: the paragraphs, joined by spaces, are the non-blank lines joined by spaces. */
  lemma ParagraphsKeepText(content: string)
    ensures Join(" ", Paragraphs(content)) == Join(" ", NonBlank(SplitLines(content)))
  {
    FeedKeepsText(SplitLines(content));
  }

  /**
   * A non-blank line opens a new paragraph exactly when it is a list item, is all upper-case, or
   * follows a paragraph longer than the soft limit (or no paragraph is open); otherwise it is added
   * to the open paragraph after a single space.
   */
  lemma LineStartsParagraphExactlyWhen(st: SegState, line: string)
    requires Strip(line) != ""
    ensures var s := Strip(line);
      var before := Flush(st);
      var after := Flush(Step(st, line));
      && (StartsParagraph(s, st.current) || st.current == "" ==> after == before + [s])
      && (!StartsParagraph(s, st.current) && st.current != "" ==>
            |before| > 0 && after == before[..|before| - 1] + [before[|before| - 1] + " " + s])
      && (|after| == |before| + 1 <==> StartsParagraph(s, st.current) || st.current == "")
  {
    var s := Strip(line);
    if !StartsParagraph(s, st.current) && st.current != "" {
      var before := Flush(st);
      assert before[..|before| - 1] == st.paragraphs;
    }
  }

  // ---------------------------------------------------------------------------------------------
  // Chunk filter and ranking of `extract_subsections`

  /** `50 < len(p) < MAX_SUBSECTION_LENGTH` and none of the boilerplate words, ignoring case. */
  predicate ValidChunk(p: string)
  {
    && 50 < |p| < Config.MaxSubsectionLength
    && !Contains(Lower(p), "copyright")
    && !Contains(Lower(p), "page")
    && !Contains(Lower(p), "confidential")
  }

  /** The paragraphs that survive the filter, in paragraph order. */
  function Chunks(content: string): (r: seq<string>)
    ensures forall p :: p in r ==> ValidChunk(p) && p in Paragraphs(content)
    ensures forall p :: p in Paragraphs(content) && ValidChunk(p) ==> p in r
  {
    Filter(Paragraphs(content), ValidChunk)
  }

  /** Chunks appear in the order of the paragraphs they come from. */
  lemma ChunksInParagraphOrder(content: string)
    ensures IsSubseq(Chunks(content), Paragraphs(content))
  {
    FilterIsSubseq(Paragraphs(content), ValidChunk);
  }

  function Identity(c: string): string { c }

  /** What `extract_subsections` returns. */
  function SubsectionRanking(content: string, persona: string, job: string, emb: Embedder): (r: seq<(string, real)>)
    ensures content == "" ==> r == []
    ensures |r| <= |Chunks(content)|
    ensures NonIncreasing(r, ScoreOf)
  {
    if content == "" then []
    else
      var valid := Chunks(content);
      if valid == [] then []
      else
        match RankItems(ContextString(persona, job), valid, Identity, emb)
        case None => []
        case Some(ranked) => ranked
  }

  /**
   * With content, nothing comes back exactly when no paragraph is valid or encoding the chunks
   * raises; otherwise every valid chunk comes back once, with its score.
   */
  lemma SubsectionRankingOutcome(content: string, persona: string, job: string, emb: Embedder)
    ensures var r := SubsectionRanking(content, persona, job, emb);
      && (content != "" ==> (r == [] <==> Chunks(content) == [] || emb.fails(Texts(Chunks(content), Identity))))
      && (r != [] ==> |r| == |Chunks(content)|)
      && (r != [] ==> multiset(r) == multiset(Scored(ContextString(persona, job), Chunks(content), Identity, emb)))
  {
    var r := SubsectionRanking(content, persona, job, emb);
    if content != "" {
      RankingOfChunks(ContextString(persona, job), Chunks(content), emb, r);
    }
  }

  /** The ranking of a list of chunks, whatever the content they came from. */
  lemma RankingOfChunks(q: string, c: seq<string>, emb: Embedder, r: seq<(string, real)>)
    requires r == (if c == [] then [] else match RankItems(q, c, Identity, emb) case None => [] case Some(x) => x)
    ensures r == [] <==> c == [] || emb.fails(Texts(c, Identity))
    ensures r != [] ==> |r| == |c| && multiset(r) == multiset(Scored(q, c, Identity, emb))
    ensures forall p :: p in r ==> p.0 in c && p.1 == emb.similarity(q, p.0)
    ensures !emb.fails(Texts(c, Identity)) ==> forall x :: x in c ==> (x, emb.similarity(q, x)) in r
  {
    if c != [] && RankItems(q, c, Identity, emb).Some? {
      RankedPairsAreScoredItems(q, c, Identity, emb);
    }
  }

  /** Every chunk handed back is a valid paragraph of the content, scored against the context. */
  lemma SubsectionsAreValidChunks(content: string, persona: string, job: string, emb: Embedder)
    ensures forall p :: p in SubsectionRanking(content, persona, job, emb) ==>
      && ValidChunk(p.0)
      && p.0 in Paragraphs(content)
      && p.1 == emb.similarity(ContextString(persona, job), p.0)
  {
    if content != "" {
      RankingOfChunks(ContextString(persona, job), Chunks(content), emb, SubsectionRanking(content, persona, job, emb));
    }
  }

  /** When the batch encodes, every valid chunk is ranked. */
  lemma SubsectionsRankEveryChunk(content: string, persona: string, job: string, emb: Embedder)
    requires content != "" && !emb.fails(Texts(Chunks(content), Identity))
    ensures forall c :: c in Chunks(content) ==>
      (c, emb.similarity(ContextString(persona, job), c)) in SubsectionRanking(content, persona, job, emb)
  {
    RankingOfChunks(ContextString(persona, job), Chunks(content), emb, SubsectionRanking(content, persona, job, emb));
  }

  /**
   * `extract_subsections`: the empty-content check, the line loop that builds paragraphs, the
   * filter, and the ranking.
   */
  method ExtractSubsections(content: string, persona: string, job: string, emb: Embedder) returns (ranked: seq<(string, real)>)
    ensures ranked == SubsectionRanking(content, persona, job, emb)
  {
    if content == "" {
      return [];
    }
    var lines := SplitLines(content);
    var paragraphs, current := SegmentLines(lines);
    if current != "" {
      paragraphs := paragraphs + [current];
    }
    var valid := Filter(paragraphs, ValidChunk);
    if valid == [] {
      return [];
    }
    var result := RankItems(ContextString(persona, job), valid, Identity, emb);
    if result.None? {
      return [];
    }
    ranked := result.value;
  }

  /** The line loop of `extract_subsections`: the closed paragraphs and `current_para` after all lines. */
  method SegmentLines(lines: seq<string>) returns (paragraphs: seq<string>, current: string)
    ensures SegState(paragraphs, current) == Feed(Start, lines)
  {
    paragraphs := [];
    current := "";
    for i := 0 to |lines|
      invariant SegState(paragraphs, current) == Feed(Start, lines[..i])
    {
      assert Feed(Start, lines[..i + 1]) == Step(Feed(Start, lines[..i]), lines[i]) by {
        assert lines[..i + 1][..i] == lines[..i];
      }
      var stripped := Strip(lines[i]);
      if stripped == "" {
        if current != "" {
          paragraphs := paragraphs + [current];
          current := "";
        }
        continue;
      }
      if IsListMarker(stripped) || IsUpperLine(stripped) || (current != "" && |current| > SoftParagraphLimit) {
        if current != "" {
          paragraphs := paragraphs + [current];
        }
        current := stripped;
      } else {
        current := if current != "" then current + " " + stripped else stripped;
      }
    }
    assert lines[..|lines|] == lines;
  }
}
