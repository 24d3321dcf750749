/**
  Structural splitting of a cleaned document into titled sections
  (`split_by_sections` in chunks.py): the text is cut at every "##" marker,
  blank pieces are dropped, and each remaining piece becomes a section whose
  title is its first line and whose body is the rest, both stripped.  The
  section content puts the marker back in front ("## title\nbody") and its
  metadata is the parent's with `section` set to the title.
*/
module Sections {
  import opened Options
  import opened Text
  import opened Docs
  import opened Seqs

  const Marker: string := "##"

  /** Title (first line) and body (remaining lines) of a non-blank piece, both stripped. */
  function TitleAndBody(piece: string): (tb: (string, string))
    requires !AllSpace(piece)
    ensures |tb.0| > 0 && Trimmed(tb.0) && '\n' !in tb.0
    ensures Trimmed(tb.1)
    ensures !Contains(piece, Marker) ==> !Contains(tb.0, Marker) && !Contains(tb.1, Marker)
  {
    var raw := Strip(piece);
    var lines := SplitFirstLine(raw);
    var title := Strip(lines.0);
    var body := if lines.1.Some? then Strip(lines.1.value) else "";
    TitleAndBodyProperties(piece);
    (title, body)
  }

  lemma TitleAndBodyProperties(piece: string)
    requires !AllSpace(piece)
    ensures var lines := SplitFirstLine(Strip(piece));
            && |Strip(lines.0)| > 0 && Trimmed(Strip(lines.0)) && '\n' !in Strip(lines.0)
            && (lines.1.Some? ==> Trimmed(Strip(lines.1.value)))
            && (!Contains(piece, Marker) ==>
                  && !Contains(Strip(lines.0), Marker)
                  && (lines.1.Some? ==> !Contains(Strip(lines.1.value), Marker)))
  {
    var raw := Strip(piece);
    var lines := SplitFirstLine(raw);
    TitleOfNonBlank(raw);
    StripKeepsAbsentChar(lines.0, '\n');
    StripIdempotent(lines.0);
    if lines.1.Some? {
      StripIdempotent(lines.1.value);
    }
    if !Contains(piece, Marker) {
      StripKeepsAbsentSubstring(piece, Marker);
      LinesKeepAbsentMarker(raw);
    }
  }

  /** Neither the first line nor the rest of a text holds a marker the text does not hold. */
  lemma LinesKeepAbsentMarker(raw: string)
    requires !Contains(raw, Marker)
    ensures var lines := SplitFirstLine(raw);
            && !Contains(Strip(lines.0), Marker)
            && (lines.1.Some? ==> !Contains(Strip(lines.1.value), Marker))
  {
    var lines := SplitFirstLine(raw);
    if lines.1.Some? {
      var first, rest := lines.0, lines.1.value;
      PartsKeepAbsentSubstring(first, rest, raw, Marker);
      StripKeepsAbsentSubstring(rest, Marker);
      StripKeepsAbsentSubstring(first, Marker);
    } else {
      StripKeepsAbsentSubstring(lines.0, Marker);
    }
  }

  /** Both sides of a line break hold only what the whole text holds. */
  lemma PartsKeepAbsentSubstring(first: string, rest: string, raw: string, sub: string)
    requires raw == first + "\n" + rest && !Contains(raw, sub)
    ensures !Contains(first, sub) && !Contains(rest, sub)
  {
    SliceKeepsAbsentSubstring(raw, 0, |first|, sub);
    assert raw[..|first|] == first;
    SliceKeepsAbsentSubstring(raw, |first| + 1, |raw|, sub);
    assert raw[|first| + 1..|raw|] == rest;
  }

  /** The first line of a stripped, non-empty text has a non-blank title. */
  lemma TitleOfNonBlank(raw: string)
    requires |raw| > 0 && !IsSpace(raw[0])
    ensures !AllSpace(SplitFirstLine(raw).0)
  {
    var first := SplitFirstLine(raw).0;
    assert |first| > 0 && first[0] == raw[0];
  }

  /** The section built from one non-blank piece of the parent document. */
  function MakeSection(parent: Document, piece: string): Document
    requires !AllSpace(piece)
  {
    var (title, body) := TitleAndBody(piece);
    Document("## " + title + "\n" + body, parent.metadata[SectionKey := Str(title)])
  }

  /** What every section promises: a non-empty, stripped, single-line title recorded
      under `section`; content "## " + title + "\n" + body with a stripped body; and
      the parent's metadata otherwise unchanged. */
  ghost predicate WellFormedSection(parent: Document, sec: Document) {
    && SectionKey in sec.metadata && sec.metadata[SectionKey].Str?
    && var title := sec.metadata[SectionKey].s;
    && |title| > 0 && Trimmed(title) && '\n' !in title
    && sec.metadata == parent.metadata[SectionKey := Str(title)]
    && StartsWith(sec.content, "## " + title + "\n")
    && Trimmed(sec.content[|title| + 4..])
  }

  /** Sections of the pieces, in order, skipping blank pieces. */
  function SectionsOf(parent: Document, pieces: seq<string>): (sections: seq<Document>)
    ensures |sections| <= |pieces|
    decreases |pieces|
  {
    if |pieces| == 0 then []
    else
      var rest := SectionsOf(parent, pieces[1..]);
      if AllSpace(pieces[0]) then rest else [MakeSection(parent, pieces[0])] + rest
  }

  /** Every section built from the pieces is well formed. */
  lemma {:induction false} SectionsOfWellFormed(parent: Document, pieces: seq<string>)
    ensures forall i :: 0 <= i < |SectionsOf(parent, pieces)| ==> WellFormedSection(parent, SectionsOf(parent, pieces)[i])
    decreases |pieces|
  {
    if |pieces| > 0 {
      SectionsOfWellFormed(parent, pieces[1..]);
      if !AllSpace(pieces[0]) {
        MakeSectionWellFormed(parent, pieces[0]);
        AllWellFormedCons(parent, MakeSection(parent, pieces[0]), SectionsOf(parent, pieces[1..]));
      }
    }
  }

  lemma AllWellFormedCons(parent: Document, sec: Document, rest: seq<Document>)
    requires WellFormedSection(parent, sec)
    requires forall i :: 0 <= i < |rest| ==> WellFormedSection(parent, rest[i])
    ensures forall i :: 0 <= i < |[sec] + rest| ==> WellFormedSection(parent, ([sec] + rest)[i])
  {
    var r := [sec] + rest;
    assert forall i :: 1 <= i < |r| ==> r[i] == rest[i - 1];
  }

  lemma MakeSectionWellFormed(parent: Document, piece: string)
    requires !AllSpace(piece)
    ensures WellFormedSection(parent, MakeSection(parent, piece))
  {
    var (title, body) := TitleAndBody(piece);
    var sec := MakeSection(parent, piece);
    assert sec.content == "## " + title + "\n" + body;
    assert sec.content[..|title| + 4] == "## " + title + "\n";
    assert sec.content[|title| + 4..] == body;
  }

  /** `split_by_sections`: one section per non-blank piece between "##" markers. */
  function SplitBySections(doc: Document): (sections: seq<Document>)
    ensures |sections| <= |Split(doc.content, Marker)|
    ensures forall i :: 0 <= i < |sections| ==> WellFormedSection(doc, sections[i])
    ensures !Contains(doc.content, Marker) ==> |sections| <= 1
    ensures !Contains(doc.content, Marker) ==> (|sections| == 0 <==> AllSpace(doc.content))
  {
    var pieces := Split(doc.content, Marker);
    SplitWithoutSeparatorIf(doc.content, Marker);
    SectionsOfWellFormed(doc, pieces);
    SectionsOf(doc, pieces)
  }

  // ---------------------------------------------------------------------------
  // Every non-blank piece becomes a section, in order
  // ---------------------------------------------------------------------------

  predicate NonBlank(s: string) {
    !AllSpace(s)
  }

  /** One section per piece, for pieces that are all non-blank. */
  function MakeSections(parent: Document, pieces: seq<string>): (r: seq<Document>)
    requires forall i :: 0 <= i < |pieces| ==> !AllSpace(pieces[i])
    ensures |r| == |pieces|
    ensures forall i :: 0 <= i < |pieces| ==> r[i] == MakeSection(parent, pieces[i])
  {
    seq(|pieces|, i requires 0 <= i < |pieces| => MakeSection(parent, pieces[i]))
  }

  /** `split_by_sections` keeps every non-blank piece between markers, in document
      order, and turns the i-th of them into the i-th section; blank pieces and only
      those are dropped. */
  lemma SplitBySectionsKeepsEveryPiece(doc: Document)
    ensures SplitBySections(doc) == MakeSections(doc, Filter(Split(doc.content, Marker), NonBlank))
  {
    SectionsOfFilter(doc, Split(doc.content, Marker));
  }

  lemma {:induction false} SectionsOfFilter(parent: Document, pieces: seq<string>)
    ensures SectionsOf(parent, pieces) == MakeSections(parent, Filter(pieces, NonBlank))
    decreases |pieces|
  {
    if |pieces| > 0 {
      var rest := Filter(pieces[1..], NonBlank);
      SectionsOfFilter(parent, pieces[1..]);
      FilterCons(pieces, NonBlank);
      if NonBlank(pieces[0]) {
        MakeSectionsCons(parent, pieces[0], rest);
      }
    }
  }

  lemma MakeSectionsCons(parent: Document, p: string, ps: seq<string>)
    requires NonBlank(p)
    requires forall i :: 0 <= i < |ps| ==> !AllSpace(ps[i])
    ensures forall i :: 0 <= i < |[p] + ps| ==> !AllSpace(([p] + ps)[i])
    ensures MakeSections(parent, [p] + ps) == [MakeSection(parent, p)] + MakeSections(parent, ps)
  {
    var l := [p] + ps;
    assert forall i :: 1 <= i < |l| ==> l[i] == ps[i - 1];
  }

  // ---------------------------------------------------------------------------
  // Round trip: rendering headed sections and splitting them again
  // ---------------------------------------------------------------------------

  /** One headed section as it is written in a document: the marker, then `lead`
      (blanks on the marker's line, possibly none), the title, a line feed, the body,
      and `gap` (whitespace, typically the line feed before the next marker). */
  datatype Heading = Heading(lead: string, title: string, body: string, gap: string)

  /** A heading that `split_by_sections` reads back: a non-empty, stripped, single-line
      title and a stripped body, neither holding the marker; a piece that does not end
      in '#' (which would merge with the next marker). */
  predicate Renderable(h: Heading) {
    && AllSpace(h.lead) && '\n' !in h.lead
    && |h.title| > 0 && Trimmed(h.title) && '\n' !in h.title && !Contains(h.title, Marker)
    && Trimmed(h.body) && !Contains(h.body, Marker)
    && AllSpace(h.gap)
    && (|h.gap| == 0 && |h.body| > 0 ==> h.body[|h.body| - 1] != '#')
  }

  predicate AllRenderable(hs: seq<Heading>) {
    |hs| == 0 || (Renderable(hs[0]) && AllRenderable(hs[1..]))
  }

  lemma {:induction false} AllRenderableEach(hs: seq<Heading>)
    requires forall i :: 0 <= i < |hs| ==> Renderable(hs[i])
    ensures AllRenderable(hs)
    decreases |hs|
  {
    if |hs| > 0 {
      AllRenderableEach(hs[1..]);
    }
  }

  /** The text between two markers that renders one heading. */
  function Piece(h: Heading): string {
    h.lead + h.title + "\n" + h.body + h.gap
  }

  function Pieces(hs: seq<Heading>): (ps: seq<string>)
    ensures |ps| == |hs|
    ensures forall i :: 0 <= i < |hs| ==> ps[i] == Piece(hs[i])
  {
    if |hs| == 0 then [] else [Piece(hs[0])] + Pieces(hs[1..])
  }

  /** A document made of a preamble and headed sections:
      pre + "##" + lead1 + t1 + "\n" + b1 + gap1 + "##" + .... */
  function Render(pre: string, hs: seq<Heading>): string {
    Join([pre] + Pieces(hs), Marker)
  }

  /** The section `split_by_sections` should produce for one heading. */
  function Expected(parent: Document, h: Heading): Document {
    Document("## " + h.title + "\n" + h.body, parent.metadata[SectionKey := Str(h.title)])
  }

  /** The sections expected for a list of headings, in order. */
  function ExpectedSections(parent: Document, hs: seq<Heading>): (r: seq<Document>)
    ensures |r| == |hs|
  {
    if |hs| == 0 then [] else [Expected(parent, hs[0])] + ExpectedSections(parent, hs[1..])
  }

  /** Splitting a rendered document returns a section for the preamble when it is not
      blank, then its headings, in order, with the parent's metadata extended by each
      title: no section is lost, merged, split or reordered. */
  lemma SplitBySectionsOfRender(pre: string, hs: seq<Heading>, metadata: Metadata)
    requires !Contains(pre, Marker) && (|pre| == 0 || pre[|pre| - 1] != '#')
    requires forall i :: 0 <= i < |hs| ==> Renderable(hs[i])
    ensures var parent := Document(Render(pre, hs), metadata);
      SplitBySections(parent) ==
        (if AllSpace(pre) then [] else [MakeSection(parent, pre)]) + ExpectedSections(parent, hs)
  {
    var parent := Document(Render(pre, hs), metadata);
    RenderSplits(pre, hs);
    AllRenderableEach(hs);
    SectionsOfPieces(parent, hs);
    if AllSpace(pre) {
      SectionsOfBlankFirst(parent, pre, Pieces(hs));
    } else {
      SectionsOfCons(parent, pre, Pieces(hs));
    }
  }

  /** Cutting a rendered document at the markers gives the preamble and then one piece
      per heading. */
  lemma RenderSplits(pre: string, hs: seq<Heading>)
    requires !Contains(pre, Marker) && (|pre| == 0 || pre[|pre| - 1] != '#')
    requires forall i :: 0 <= i < |hs| ==> Renderable(hs[i])
    ensures Split(Render(pre, hs), Marker) == [pre] + Pieces(hs)
  {
    var ps := PiecesHaveNoMarker(pre, hs);
    JoinSplits(ps);
  }

  lemma JoinSplits(ps: seq<string>)
    requires forall i :: 0 <= i < |ps| ==> !Contains(ps[i], Marker) && (|ps[i]| == 0 || ps[i][|ps[i]| - 1] != '#')
    ensures |ps| >= 1 ==> Split(Join(ps, Marker), Marker) == ps
  {
    if |ps| >= 1 {
      SplitOfJoin(ps);
    }
  }

  lemma PiecesHaveNoMarker(pre: string, hs: seq<Heading>) returns (ps: seq<string>)
    requires !Contains(pre, Marker) && (|pre| == 0 || pre[|pre| - 1] != '#')
    requires forall i :: 0 <= i < |hs| ==> Renderable(hs[i])
    ensures ps == [pre] + Pieces(hs)
    ensures forall i :: 0 <= i < |ps| ==> !Contains(ps[i], Marker) && (|ps[i]| == 0 || ps[i][|ps[i]| - 1] != '#')
  {
    var qs := Pieces(hs);
    ps := [pre] + qs;
    forall i | 0 <= i < |ps| ensures !Contains(ps[i], Marker) && (|ps[i]| == 0 || ps[i][|ps[i]| - 1] != '#') {
      if i > 0 {
        assert ps[i] == qs[i - 1] == Piece(hs[i - 1]);
        PieceHasNoMarker(hs[i - 1]);
      }
    }
  }

  lemma SectionsOfBlankFirst(parent: Document, piece: string, rest: seq<string>)
    requires AllSpace(piece)
    ensures SectionsOf(parent, [piece] + rest) == SectionsOf(parent, rest)
  {
    assert ([piece] + rest)[1..] == rest;
  }

  lemma {:induction false} SectionsOfPieces(parent: Document, hs: seq<Heading>)
    requires AllRenderable(hs)
    ensures SectionsOf(parent, Pieces(hs)) == ExpectedSections(parent, hs)
    decreases |hs|
  {
    if |hs| > 0 {
      PieceSection(parent, hs[0]);
      SectionsOfPieces(parent, hs[1..]);
      SectionsOfCons(parent, Piece(hs[0]), Pieces(hs[1..]));
    }
  }

  lemma SectionsOfCons(parent: Document, piece: string, rest: seq<string>)
    requires !AllSpace(piece)
    ensures SectionsOf(parent, [piece] + rest) == [MakeSection(parent, piece)] + SectionsOf(parent, rest)
  {
    assert ([piece] + rest)[1..] == rest;
  }

  /** One rendered heading becomes exactly the expected section. */
  lemma PieceSection(parent: Document, h: Heading)
    requires Renderable(h)
    ensures !AllSpace(Piece(h)) && MakeSection(parent, Piece(h)) == Expected(parent, h)
  {
    PieceTitleAndBody(h);
  }

  lemma PieceTitleAndBody(h: Heading)
    requires Renderable(h)
    ensures !AllSpace(Piece(h)) && TitleAndBody(Piece(h)) == (h.title, h.body)
  {
    var p := Piece(h);
    var t, b := h.title, h.body;
    if |b| == 0 {
      assert p == h.lead + t + ("\n" + h.gap);
      StripPadded(h.lead, t, "\n" + h.gap);
      SplitFirstLineWithout(t);
      TitleAndBodyOfLine(p, t);
    } else {
      var x := t + "\n" + b;
      assert p == h.lead + x + h.gap;
      assert x[0] == t[0] && x[|x| - 1] == b[|b| - 1];
      StripPadded(h.lead, x, h.gap);
      SplitFirstLineAt(t, b);
      TitleAndBodyOfLines(p, t, b);
    }
  }

  lemma TitleAndBodyOfLine(p: string, t: string)
    requires !AllSpace(p) && Trimmed(t) && SplitFirstLine(Strip(p)) == (t, None)
    ensures TitleAndBody(p) == (t, "")
  {
    StripTrimmed(t);
  }

  lemma TitleAndBodyOfLines(p: string, t: string, b: string)
    requires !AllSpace(p) && Trimmed(t) && Trimmed(b) && SplitFirstLine(Strip(p)) == (t, Some(b))
    ensures TitleAndBody(p) == (t, b)
  {
    StripTrimmed(t);
    StripTrimmed(b);
  }

  /** Stripping a trimmed text padded with whitespace on both sides gives the text. */
  lemma StripPadded(a: string, x: string, b: string)
    requires AllSpace(a) && AllSpace(b) && |x| > 0 && Trimmed(x)
    ensures !AllSpace(a + x + b) && Strip(a + x + b) == x
  {
    var s := a + x + b;
    var n, m := |a|, |a| + |x|;
    assert s[n] == x[0] && s[m - 1] == x[|x| - 1];
    var r := Strip(s);
    var k := StripIsMiddle(s);
    var e := k + |r|;
    BlankPrefix(s, k);
    BlankSuffix(s, e);
    assert s[..n] == a && s[m..] == b;
    BlankPrefix(s, n);
    BlankSuffix(s, m);
    assert s[k] == r[0] && s[e - 1] == r[|r| - 1];
    assert k == n && e == m;
    assert s[n..m] == x;
  }

  /** Every character of a blank prefix is whitespace. */
  lemma BlankPrefix(s: string, k: nat)
    requires k <= |s| && AllSpace(s[..k])
    ensures forall j :: 0 <= j < k ==> IsSpace(s[j])
  {
    forall j | 0 <= j < k ensures IsSpace(s[j]) {
      assert s[..k][j] == s[j];
    }
  }

  /** Every character of a blank suffix is whitespace. */
  lemma BlankSuffix(s: string, e: nat)
    requires e <= |s| && AllSpace(s[e..])
    ensures forall j :: e <= j < |s| ==> IsSpace(s[j])
  {
    forall j | e <= j < |s| ensures IsSpace(s[j]) {
      assert s[e..][j - e] == s[j];
    }
  }

  lemma SplitFirstLineWithout(t: string)
    requires '\n' !in t
    ensures SplitFirstLine(t) == (t, None)
  {
  }

  lemma SplitFirstLineAt(t: string, b: string)
    requires '\n' !in t
    ensures SplitFirstLine(t + "\n" + b) == (t, Some(b))
  {
    var s := t + "\n" + b;
    var r := SplitFirstLine(s);
    var n := |r.0|;
    assert s[..|t|] == t && s[|t|] == '\n';
    FirstIndexAt(s, '\n', |t|);
    assert s[..n] == r.0 && s[n] == '\n';
    FirstIndexAt(s, '\n', n);
    assert r.0 == s[..n] == t;
    assert r.1.value == s[n + 1..] == b;
  }

  /** The marker occurs exactly where two '#' characters follow each other. */
  lemma MarkerAt(s: string, j: int)
    ensures OccursAt(s, Marker, j) <==> 0 <= j && j + 2 <= |s| && s[j] == '#' && s[j + 1] == '#'
  {
    if 0 <= j && j + 2 <= |s| {
      assert s[j..j + 2] == [s[j], s[j + 1]];
    }
  }

  /** Whitespace holds no marker. */
  lemma BlankHasNoMarker(a: string)
    requires AllSpace(a)
    ensures !Contains(a, Marker)
  {
    forall j | 0 <= j <= |a| ensures !OccursAt(a, Marker, j) {
      MarkerAt(a, j);
      if j < |a| {
        assert IsSpace(a[j]);
      }
    }
  }

  /** Two texts without the marker, not joined by two '#', make a text without it. */
  lemma NoMarkerConcat(x: string, y: string)
    requires !Contains(x, Marker) && !Contains(y, Marker)
    requires |x| == 0 || |y| == 0 || x[|x| - 1] != '#' || y[0] != '#'
    ensures !Contains(x + y, Marker)
  {
    var s := x + y;
    forall j | 0 <= j <= |s| ensures !OccursAt(s, Marker, j) {
      MarkerAt(s, j);
      if j + 2 <= |s| {
        if j + 2 <= |x| {
          MarkerAt(x, j);
          assert s[j] == x[j] && s[j + 1] == x[j + 1];
        } else if j >= |x| {
          MarkerAt(y, j - |x|);
          assert s[j] == y[j - |x|] && s[j + 1] == y[j - |x| + 1];
        } else {
          assert s[j] == x[|x| - 1] && s[j + 1] == y[0];
        }
      }
    }
  }

  /** A rendered heading neither contains the marker nor ends in '#'. */
  lemma PieceHasNoMarker(h: Heading)
    requires Renderable(h)
    ensures !Contains(Piece(h), Marker)
    ensures Piece(h)[|Piece(h)| - 1] != '#'
  {
    var p1 := h.lead + h.title;
    var p2 := p1 + "\n";
    var p3 := p2 + h.body;
    BlankHasNoMarker(h.lead);
    assert |h.lead| > 0 ==> IsSpace(h.lead[|h.lead| - 1]);
    NoMarkerConcat(h.lead, h.title);
    BlankHasNoMarker("\n");
    NoMarkerConcat(p1, "\n");
    NoMarkerConcat(p2, h.body);
    BlankHasNoMarker(h.gap);
    assert |h.gap| > 0 ==> IsSpace(h.gap[0]) && IsSpace(h.gap[|h.gap| - 1]);
    NoMarkerConcat(p3, h.gap);
    assert Piece(h) == p3 + h.gap;
    if |h.gap| == 0 {
      assert Piece(h) == p3;
      if |h.body| == 0 {
        assert p3 == p2;
      } else {
        assert p3[|p3| - 1] == h.body[|h.body| - 1];
      }
    } else {
      assert Piece(h)[|Piece(h)| - 1] == h.gap[|h.gap| - 1];
    }
  }

  /** Python's `"##".join(pieces).split("##")` gives the pieces back when no piece
      contains the marker and no piece ends with '#'. */
  lemma {:induction false} SplitOfJoin(ps: seq<string>)
    requires |ps| >= 1
    requires forall i :: 0 <= i < |ps| ==> !Contains(ps[i], Marker)
    requires forall i :: 0 <= i < |ps| ==> |ps[i]| == 0 || ps[i][|ps[i]| - 1] != '#'
    ensures Split(Join(ps, Marker), Marker) == ps
    decreases |ps|
  {
    if |ps| == 1 {
      SplitWithoutSeparator(ps[0], Marker);
    } else {
      var p := ps[0];
      var rest := Join(ps[1..], Marker);
      var s := Join(ps, Marker);
      assert s == p + Marker + rest;
      FirstMarkerAfterPiece(p, rest);
      assert s[..|p|] == p;
      assert s[|p| + 2..] == rest;
      SplitOfJoin(ps[1..]);
    }
  }

  /** The first marker in `p + "##" + rest` is the one right after `p`. */
  lemma FirstMarkerAfterPiece(p: string, rest: string)
    requires !Contains(p, Marker)
    requires |p| == 0 || p[|p| - 1] != '#'
    ensures Find(p + Marker + rest, Marker, 0) == Some(|p|)
  {
    var s := p + Marker + rest;
    assert OccursAt(s, Marker, |p|);
    forall j | 0 <= j < |p| ensures !OccursAt(s, Marker, j) {
      MarkerAt(s, j);
      if j + 2 <= |p| {
        MarkerAt(p, j);
        assert s[j] == p[j] && s[j + 1] == p[j + 1];
      } else {
        assert s[j] == p[|p| - 1];
      }
    }
    var r := Find(s, Marker, 0);
    assert r.Some?;
  }
}
