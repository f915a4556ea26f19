/** The result page: `buildHtmlResult` in server.js. The page is built by pasting
    fixed markup around the escaped file name and one table row per label. The
    `<style>` sheet in the head and the template's line breaks and indentation are
    not part of this model; every other tag, attribute and text is. */
module ResultPage {
  import opened HtmlEscape
  import opened Markup

  /** The characters `Number.prototype.toFixed` can produce: digits, sign, point,
      exponent, and the letters of `NaN` and `Infinity`. */
  const NumeralChars: set<char> :=
    {'0', '1', '2', '3', '4', '5', '6', '7', '8', '9', '.', '-', '+', 'e',
     'N', 'a', 'I', 'n', 'f', 'i', 't', 'y'}

  /** Text that `toFixed` can return. */
  type Numeral = s: string | forall i | 0 <= i < |s| :: s[i] in NumeralChars

  /** A label annotation as the server keeps it: a description and a score. */
  datatype Label = Label(description: string, score: real)

  /** `percent(x)` stands for the text of `(x*100).toFixed(1)`; floating-point
      formatting is not modelled, so it is a parameter of the rendering. */
  type Percent = real -> Numeral

  // ---------------------------------------------------------------------------
  // The page, as the server builds it, part by part

  /** The document title: the escaped file name after a fixed caption. */
  function Title(filename: string): string
  {
    "<title>" + "Labels for " + EscapeHtml(filename) + "</title>"
  }

  /** Everything before the body. */
  function Prologue(filename: string): string
  {
    "<!doctype html>" + "<html>" + "<head>" + "<meta charset=\"utf-8\" />" + Title(filename) + "</head>"
  }

  /** The escaped file name as it is emphasised in the heading. */
  function Named(filename: string): string
  {
    "<em>" + EscapeHtml(filename) + "</em>"
  }

  /** The opening of the body, up to the end of the heading. */
  function Heading(filename: string): string
  {
    "<body>" + "<div class=\"card\">" + "<h2>" + "Detected labels for " + Named(filename) + "</h2>"
  }

  function Head(filename: string): string
  {
    Prologue(filename) + Heading(filename)
  }

  /** The inline style of the cells of a row. */
  const CellStyle := "padding:8px;border-bottom:1px solid #eee"
  const DescriptionCell := "<td style=\"" + CellStyle + "\">"
  const ScoreStyle := CellStyle + "; text-align:right"
  const ScoreCell := "<td style=\"" + ScoreStyle + "\">"

  /** One table row: the escaped description, then the score followed by `%`. */
  function Row(l: Label, percent: Percent): string
  {
    "<tr>" + DescriptionCell + EscapeHtml(l.description) + "</td>" +
    ScoreCell + percent(l.score) + "%" + "</td>" + "</tr>"
  }

  /** `labels.map(row).join('')`. */
  function Rows(labels: seq<Label>, percent: Percent): string
    decreases |labels|
  {
    if labels == [] then "" else Row(labels[0], percent) + Rows(labels[1..], percent)
  }

  const HeaderRow := "<tr>" + "<th>" + "Label" + "</th>" +
    "<th style=\"text-align:right\">" + "Confidence" + "</th>" + "</tr>"

  /** The table body: one row per label, in order. */
  function Body(labels: seq<Label>, percent: Percent): string
  {
    "<tbody>" + Rows(labels, percent) + "</tbody>"
  }

  const NoteStyle := "<p style=\"color:#666;margin-top:10px\">"
  // The note's sentence is kept in three pieces only to keep the verifier's work on
  // long string literals small; `Note` joins them into the text the page shows.
  const Note1 := "Note: confidence is model's "
  const Note2 := "score (0–100%). "
  const Note3 := "Lower scores may be noisy."

  /** The note on scores below the table. */
  const Note := NoteStyle + Note1 + Note2 + Note3 + "</p>"

  /** The table shown when there are labels, followed by the note on scores. */
  function Table(labels: seq<Label>, percent: Percent): string
  {
    "<table>" + "<thead>" + HeaderRow + "</thead>" + Body(labels, percent) + "</table>" + Note
  }

  /** The paragraph shown instead of the table when there are no labels. */
  const NoLabels := "<p>" + "No labels found." + "</p>"

  /** The link back to the upload form. */
  const BackLink := "<a href=\"/\">" + "Analyze another image" + "</a>"

  /** The back-link paragraph and the closing tags. */
  const Foot := "<p>" + BackLink + "</p>" + "</div>" + "</body>" + "</html>"

  /** The result page for an uploaded file and the labels found in it. */
  function BuildHtmlResult(filename: string, labels: seq<Label>, percent: Percent): string
  {
    Head(filename) + (if |labels| > 0 then Table(labels, percent) else NoLabels) + Foot
  }

  // ---------------------------------------------------------------------------
  // What `Lex` reads in each part: its token stream

  function TitleTokens(filename: string): seq<Token>
  {
    [Tag("<title>")] + Chars("Labels for ") + Chars(EscapeHtml(filename)) + [Tag("</title>")]
  }

  function PrologueTokens(filename: string): seq<Token>
  {
    [Tag("<!doctype html>")] + [Tag("<html>")] + [Tag("<head>")] + [Tag("<meta charset=\"utf-8\" />")] +
    TitleTokens(filename) + [Tag("</head>")]
  }

  function NamedTokens(filename: string): seq<Token>
  {
    [Tag("<em>")] + Chars(EscapeHtml(filename)) + [Tag("</em>")]
  }

  function HeadingTokens(filename: string): seq<Token>
  {
    [Tag("<body>")] + [Tag("<div class=\"card\">")] + [Tag("<h2>")] + Chars("Detected labels for ") +
    NamedTokens(filename) + [Tag("</h2>")]
  }

  function HeadTokens(filename: string): seq<Token>
  {
    PrologueTokens(filename) + HeadingTokens(filename)
  }

  function RowTokens(l: Label, percent: Percent): seq<Token>
  {
    [Tag("<tr>")] + [Tag(DescriptionCell)] + Chars(EscapeHtml(l.description)) + [Tag("</td>")] +
    [Tag(ScoreCell)] + Chars(percent(l.score)) + Chars("%") + [Tag("</td>")] + [Tag("</tr>")]
  }

  function RowsTokens(labels: seq<Label>, percent: Percent): seq<Token>
    decreases |labels|
  {
    if labels == [] then [] else RowTokens(labels[0], percent) + RowsTokens(labels[1..], percent)
  }

  const HeaderRowTokens := [Tag("<tr>")] + [Tag("<th>")] + Chars("Label") + [Tag("</th>")] +
    [Tag("<th style=\"text-align:right\">")] + Chars("Confidence") + [Tag("</th>")] + [Tag("</tr>")]

  function BodyTokens(labels: seq<Label>, percent: Percent): seq<Token>
  {
    [Tag("<tbody>")] + RowsTokens(labels, percent) + [Tag("</tbody>")]
  }

  const NoteTokens := [Tag(NoteStyle)] + Chars(Note1) + Chars(Note2) + Chars(Note3) + [Tag("</p>")]

  function TableTokens(labels: seq<Label>, percent: Percent): seq<Token>
  {
    [Tag("<table>")] + [Tag("<thead>")] + HeaderRowTokens + [Tag("</thead>")] +
    BodyTokens(labels, percent) + [Tag("</table>")] + NoteTokens
  }

  const NoLabelsTokens := [Tag("<p>")] + Chars("No labels found.") + [Tag("</p>")]

  const BackLinkTokens := [Tag("<a href=\"/\">")] + Chars("Analyze another image") + [Tag("</a>")]

  const FootTokens := [Tag("<p>")] + BackLinkTokens + [Tag("</p>")] +
    [Tag("</div>")] + [Tag("</body>")] + [Tag("</html>")]

  function PageTokens(filename: string, labels: seq<Label>, percent: Percent): seq<Token>
  {
    HeadTokens(filename) + (if |labels| > 0 then TableTokens(labels, percent) else NoLabelsTokens) + FootTokens
  }

  // ---------------------------------------------------------------------------
  // The markup skeleton of the page: its tags, which depend on the number of labels only

  const TitleTags := ["<title>"] + ["</title>"]
  const PrologueTags := ["<!doctype html>"] + ["<html>"] + ["<head>"] + ["<meta charset=\"utf-8\" />"] +
    TitleTags + ["</head>"]
  const NamedTags := ["<em>"] + ["</em>"]
  const HeadingTags := ["<body>"] + ["<div class=\"card\">"] + ["<h2>"] + NamedTags + ["</h2>"]
  const HeadTags := PrologueTags + HeadingTags
  const RowMarkup := ["<tr>"] + [DescriptionCell] + ["</td>"] + [ScoreCell] + ["</td>"] + ["</tr>"]
  const HeaderRowTags := ["<tr>"] + ["<th>"] + ["</th>"] + ["<th style=\"text-align:right\">"] + ["</th>"] + ["</tr>"]
  const NoteTags := [NoteStyle] + ["</p>"]
  const NoLabelsTags := ["<p>"] + ["</p>"]
  const BackLinkTags := ["<a href=\"/\">"] + ["</a>"]
  const FootTags := ["<p>"] + BackLinkTags + ["</p>"] + ["</div>"] + ["</body>"] + ["</html>"]

  /** The tags of `n` table rows. */
  function RowTags(n: nat): seq<string>
  {
    if n == 0 then [] else RowMarkup + RowTags(n - 1)
  }

  function BodyTags(n: nat): seq<string>
  {
    ["<tbody>"] + RowTags(n) + ["</tbody>"]
  }

  function TableTags(n: nat): seq<string>
  {
    ["<table>"] + ["<thead>"] + HeaderRowTags + ["</thead>"] + BodyTags(n) + ["</table>"] + NoteTags
  }

  /** The tags of a result page with `n` labels. */
  function PageTags(n: nat): seq<string>
  {
    HeadTags + (if n > 0 then TableTags(n) else NoLabelsTags) + FootTags
  }

  // ---------------------------------------------------------------------------
  // Each part is written as its tokens, whatever the untrusted strings hold.
  //
  // For every part, `...Written` shows that its tokens are written as the part's text
  // and are well formed, `...Tagged` gives its tags and `...Text` its text. Each proof
  // adds the part's pieces one at a time, in source order. They are kept as separate,
  // explicit chains rather than one lemma over a list of pieces because that keeps
  // each proof obligation small for the verifier.

  lemma NumeralPlain(s: Numeral)
    ensures '<' !in s
  {
  }

  // The fixed tags of each part are single tags and its fixed text holds no `<`.

  lemma PrologueMarkup()
    ensures IsTag("<!doctype html>") && IsTag("<html>") && IsTag("<head>")
    ensures IsTag("<meta charset=\"utf-8\" />")
    ensures IsTag("<title>") && IsTag("</title>") && IsTag("</head>")
    ensures '<' !in "Labels for "
  {
  }

  lemma HeadingMarkup()
    ensures IsTag("<body>") && IsTag("<div class=\"card\">") && IsTag("<h2>") && IsTag("</h2>")
    ensures IsTag("<em>") && IsTag("</em>")
    ensures '<' !in "Detected labels for "
  {
  }

  lemma CellTag(style: string)
    requires '<' !in style && '>' !in style
    ensures IsTag("<td style=\"" + style + "\">")
  {
    var t := "<td style=\"" + style + "\">";
    forall i | 0 < i < |t| - 1
      ensures t[i] != '<' && t[i] != '>'
    {
      if 11 <= i < 11 + |style| {
        assert t[i] == style[i - 11];
      }
    }
  }

  lemma CellStylePlain()
    ensures '<' !in CellStyle && '>' !in CellStyle
  {
  }

  lemma ScoreStylePlain()
    ensures '<' !in ScoreStyle && '>' !in ScoreStyle
  {
    CellStylePlain();
  }

  lemma DescriptionCellTag()
    ensures IsTag(DescriptionCell)
  {
    CellStylePlain();
    CellTag(CellStyle);
  }

  lemma ScoreCellTag()
    ensures IsTag(ScoreCell)
  {
    ScoreStylePlain();
    CellTag(ScoreStyle);
  }

  lemma RowMarkupFacts()
    ensures IsTag("<tr>") && IsTag("</tr>") && IsTag("</td>")
    ensures '<' !in "%"
  {
  }

  lemma TableMarkup()
    ensures IsTag("<table>") && IsTag("</table>") && IsTag("<thead>") && IsTag("</thead>")
    ensures IsTag("<tbody>") && IsTag("</tbody>")
    ensures IsTag("<tr>") && IsTag("</tr>")
    ensures IsTag("<th>") && IsTag("</th>")
    ensures '<' !in "Label" && '<' !in "Confidence"
  {
  }

  lemma HeaderStyleMarkup()
    ensures IsTag("<th style=\"text-align:right\">")
  {
  }

  lemma NoteStyleTag()
    ensures IsTag(NoteStyle) && IsTag("</p>")
  {
  }

  lemma NoteText()
    ensures '<' !in Note1 && '<' !in Note2 && '<' !in Note3
  {
  }

  lemma FootMarkup()
    ensures IsTag("<p>") && IsTag("</p>")
    ensures IsTag("<a href=\"/\">") && IsTag("</a>") && IsTag("</div>") && IsTag("</body>") && IsTag("</html>")
    ensures '<' !in "No labels found." && '<' !in "Analyze another image"
  {
  }

  lemma TitleWritten(filename: string)
    ensures Render(TitleTokens(filename)) == Title(filename)
    ensures WellFormed(TitleTokens(filename))
  {
    PrologueMarkup();
    EscapeHtmlNoRaw(filename);
    TagPiece("<title>");
    var s1 := [Tag("<title>")] + Chars("Labels for ");
    RenderedChars([Tag("<title>")], "Labels for ");
    var s2 := s1 + Chars(EscapeHtml(filename));
    RenderedChars(s1, EscapeHtml(filename));
    RenderedTag(s2, "</title>");
  }

  lemma TitleTagged(filename: string)
    ensures Tags(TitleTokens(filename)) == TitleTags
  {
    TagPiece("<title>");
    var s1 := [Tag("<title>")] + Chars("Labels for ");
    TaggedChars([Tag("<title>")], "Labels for ");
    var s2 := s1 + Chars(EscapeHtml(filename));
    TaggedChars(s1, EscapeHtml(filename));
    TaggedTag(s2, "</title>");
  }

  lemma TitleText(filename: string)
    ensures Text(TitleTokens(filename)) == "Labels for " + EscapeHtml(filename)
  {
    TagPiece("<title>");
    var s1 := [Tag("<title>")] + Chars("Labels for ");
    TextAfterChars([Tag("<title>")], "Labels for ");
    var s2 := s1 + Chars(EscapeHtml(filename));
    TextAfterChars(s1, EscapeHtml(filename));
    TextAfterTag(s2, "</title>");
  }

  lemma PrologueWritten(filename: string)
    ensures Render(PrologueTokens(filename)) == Prologue(filename)
    ensures WellFormed(PrologueTokens(filename))
  {
    PrologueMarkup();
    TagPiece("<!doctype html>");
    TitleWritten(filename);
    var s1 := [Tag("<!doctype html>")] + [Tag("<html>")];
    RenderedTag([Tag("<!doctype html>")], "<html>");
    var s2 := s1 + [Tag("<head>")];
    RenderedTag(s1, "<head>");
    var s3 := s2 + [Tag("<meta charset=\"utf-8\" />")];
    RenderedTag(s2, "<meta charset=\"utf-8\" />");
    var s4 := s3 + TitleTokens(filename);
    Rendered(s3, TitleTokens(filename));
    RenderedTag(s4, "</head>");
  }

  lemma PrologueTagged(filename: string)
    ensures Tags(PrologueTokens(filename)) == PrologueTags
  {
    TagPiece("<!doctype html>");
    TitleTagged(filename);
    var s1 := [Tag("<!doctype html>")] + [Tag("<html>")];
    TaggedTag([Tag("<!doctype html>")], "<html>");
    var s2 := s1 + [Tag("<head>")];
    TaggedTag(s1, "<head>");
    var s3 := s2 + [Tag("<meta charset=\"utf-8\" />")];
    TaggedTag(s2, "<meta charset=\"utf-8\" />");
    var s4 := s3 + TitleTokens(filename);
    TagsAppend(s3, TitleTokens(filename));
    TaggedTag(s4, "</head>");
  }

  lemma NamedWritten(filename: string)
    ensures Render(NamedTokens(filename)) == Named(filename)
    ensures WellFormed(NamedTokens(filename))
  {
    HeadingMarkup();
    EscapeHtmlNoRaw(filename);
    TagPiece("<em>");
    var s1 := [Tag("<em>")] + Chars(EscapeHtml(filename));
    RenderedChars([Tag("<em>")], EscapeHtml(filename));
    RenderedTag(s1, "</em>");
  }

  lemma NamedTagged(filename: string)
    ensures Tags(NamedTokens(filename)) == NamedTags
  {
    TagPiece("<em>");
    var s1 := [Tag("<em>")] + Chars(EscapeHtml(filename));
    TaggedChars([Tag("<em>")], EscapeHtml(filename));
    TaggedTag(s1, "</em>");
  }

  lemma NamedText(filename: string)
    ensures Text(NamedTokens(filename)) == EscapeHtml(filename)
  {
    TagPiece("<em>");
    var s1 := [Tag("<em>")] + Chars(EscapeHtml(filename));
    TextAfterChars([Tag("<em>")], EscapeHtml(filename));
    TextAfterTag(s1, "</em>");
  }

  lemma HeadingWritten(filename: string)
    ensures Render(HeadingTokens(filename)) == Heading(filename)
    ensures WellFormed(HeadingTokens(filename))
  {
    HeadingMarkup();
    TagPiece("<body>");
    NamedWritten(filename);
    var s1 := [Tag("<body>")] + [Tag("<div class=\"card\">")];
    RenderedTag([Tag("<body>")], "<div class=\"card\">");
    var s2 := s1 + [Tag("<h2>")];
    RenderedTag(s1, "<h2>");
    var s3 := s2 + Chars("Detected labels for ");
    RenderedChars(s2, "Detected labels for ");
    var s4 := s3 + NamedTokens(filename);
    Rendered(s3, NamedTokens(filename));
    RenderedTag(s4, "</h2>");
  }

  lemma HeadingTagged(filename: string)
    ensures Tags(HeadingTokens(filename)) == HeadingTags
  {
    TagPiece("<body>");
    NamedTagged(filename);
    var s1 := [Tag("<body>")] + [Tag("<div class=\"card\">")];
    TaggedTag([Tag("<body>")], "<div class=\"card\">");
    var s2 := s1 + [Tag("<h2>")];
    TaggedTag(s1, "<h2>");
    var s3 := s2 + Chars("Detected labels for ");
    TaggedChars(s2, "Detected labels for ");
    var s4 := s3 + NamedTokens(filename);
    TagsAppend(s3, NamedTokens(filename));
    TaggedTag(s4, "</h2>");
  }

  lemma HeadWritten(filename: string)
    ensures Render(HeadTokens(filename)) == Head(filename)
    ensures WellFormed(HeadTokens(filename))
  {
    PrologueWritten(filename);
    HeadingWritten(filename);
    Rendered(PrologueTokens(filename), HeadingTokens(filename));
  }

  lemma HeadTagged(filename: string)
    ensures Tags(HeadTokens(filename)) == HeadTags
  {
    PrologueTagged(filename);
    HeadingTagged(filename);
    TagsAppend(PrologueTokens(filename), HeadingTokens(filename));
  }

  lemma RowWritten(l: Label, percent: Percent)
    ensures Render(RowTokens(l, percent)) == Row(l, percent)
    ensures WellFormed(RowTokens(l, percent))
  {
    RowMarkupFacts();
    DescriptionCellTag();
    ScoreCellTag();
    EscapeHtmlNoRaw(l.description);
    NumeralPlain(percent(l.score));
    TagPiece("<tr>");
    var s1 := [Tag("<tr>")] + [Tag(DescriptionCell)];
    RenderedTag([Tag("<tr>")], DescriptionCell);
    var s2 := s1 + Chars(EscapeHtml(l.description));
    RenderedChars(s1, EscapeHtml(l.description));
    var s3 := s2 + [Tag("</td>")];
    RenderedTag(s2, "</td>");
    var s4 := s3 + [Tag(ScoreCell)];
    RenderedTag(s3, ScoreCell);
    var s5 := s4 + Chars(percent(l.score));
    RenderedChars(s4, percent(l.score));
    var s6 := s5 + Chars("%");
    RenderedChars(s5, "%");
    var s7 := s6 + [Tag("</td>")];
    RenderedTag(s6, "</td>");
    RenderedTag(s7, "</tr>");
  }

  lemma RowTagged(l: Label, percent: Percent)
    ensures Tags(RowTokens(l, percent)) == RowMarkup
  {
    TagPiece("<tr>");
    var s1 := [Tag("<tr>")] + [Tag(DescriptionCell)];
    TaggedTag([Tag("<tr>")], DescriptionCell);
    var s2 := s1 + Chars(EscapeHtml(l.description));
    TaggedChars(s1, EscapeHtml(l.description));
    var s3 := s2 + [Tag("</td>")];
    TaggedTag(s2, "</td>");
    var s4 := s3 + [Tag(ScoreCell)];
    TaggedTag(s3, ScoreCell);
    var s5 := s4 + Chars(percent(l.score));
    TaggedChars(s4, percent(l.score));
    var s6 := s5 + Chars("%");
    TaggedChars(s5, "%");
    var s7 := s6 + [Tag("</td>")];
    TaggedTag(s6, "</td>");
    TaggedTag(s7, "</tr>");
  }

  lemma RowText(l: Label, percent: Percent)
    ensures Text(RowTokens(l, percent)) == EscapeHtml(l.description) + percent(l.score) + "%"
  {
    TagPiece("<tr>");
    var s1 := [Tag("<tr>")] + [Tag(DescriptionCell)];
    TextAfterTag([Tag("<tr>")], DescriptionCell);
    var s2 := s1 + Chars(EscapeHtml(l.description));
    TextAfterChars(s1, EscapeHtml(l.description));
    var s3 := s2 + [Tag("</td>")];
    TextAfterTag(s2, "</td>");
    var s4 := s3 + [Tag(ScoreCell)];
    TextAfterTag(s3, ScoreCell);
    var s5 := s4 + Chars(percent(l.score));
    TextAfterChars(s4, percent(l.score));
    var s6 := s5 + Chars("%");
    TextAfterChars(s5, "%");
    var s7 := s6 + [Tag("</td>")];
    TextAfterTag(s6, "</td>");
    TextAfterTag(s7, "</tr>");
  }

  lemma {:induction false} RowsWritten(labels: seq<Label>, percent: Percent)
    ensures Render(RowsTokens(labels, percent)) == Rows(labels, percent)
    ensures WellFormed(RowsTokens(labels, percent))
    decreases |labels|
  {
    if labels == [] {
      assert WellFormed([]);
    } else {
      RowWritten(labels[0], percent);
      RowsWritten(labels[1..], percent);
      Rendered(RowTokens(labels[0], percent), RowsTokens(labels[1..], percent));
    }
  }

  lemma {:induction false} RowsTagged(labels: seq<Label>, percent: Percent)
    ensures Tags(RowsTokens(labels, percent)) == RowTags(|labels|)
    decreases |labels|
  {
    if labels != [] {
      RowTagged(labels[0], percent);
      RowsTagged(labels[1..], percent);
      TagsAppend(RowTokens(labels[0], percent), RowsTokens(labels[1..], percent));
    }
  }

  lemma BodyWritten(labels: seq<Label>, percent: Percent)
    ensures Render(BodyTokens(labels, percent)) == Body(labels, percent)
    ensures WellFormed(BodyTokens(labels, percent))
  {
    TableMarkup();
    TagPiece("<tbody>");
    RowsWritten(labels, percent);
    var s1 := [Tag("<tbody>")] + RowsTokens(labels, percent);
    Rendered([Tag("<tbody>")], RowsTokens(labels, percent));
    RenderedTag(s1, "</tbody>");
  }

  lemma BodyTagged(labels: seq<Label>, percent: Percent)
    ensures Tags(BodyTokens(labels, percent)) == BodyTags(|labels|)
  {
    TagPiece("<tbody>");
    RowsTagged(labels, percent);
    var s1 := [Tag("<tbody>")] + RowsTokens(labels, percent);
    TagsAppend([Tag("<tbody>")], RowsTokens(labels, percent));
    TaggedTag(s1, "</tbody>");
  }

  lemma HeaderRowWritten()
    ensures Render(HeaderRowTokens) == HeaderRow
    ensures WellFormed(HeaderRowTokens)
  {
    TableMarkup();
    HeaderStyleMarkup();
    TagPiece("<tr>");
    var s1 := [Tag("<tr>")] + [Tag("<th>")];
    RenderedTag([Tag("<tr>")], "<th>");
    var s2 := s1 + Chars("Label");
    RenderedChars(s1, "Label");
    var s3 := s2 + [Tag("</th>")];
    RenderedTag(s2, "</th>");
    var s4 := s3 + [Tag("<th style=\"text-align:right\">")];
    RenderedTag(s3, "<th style=\"text-align:right\">");
    var s5 := s4 + Chars("Confidence");
    RenderedChars(s4, "Confidence");
    var s6 := s5 + [Tag("</th>")];
    RenderedTag(s5, "</th>");
    RenderedTag(s6, "</tr>");
  }

  lemma HeaderRowTagged()
    ensures Tags(HeaderRowTokens) == HeaderRowTags
  {
    TagPiece("<tr>");
    var s1 := [Tag("<tr>")] + [Tag("<th>")];
    TaggedTag([Tag("<tr>")], "<th>");
    var s2 := s1 + Chars("Label");
    TaggedChars(s1, "Label");
    var s3 := s2 + [Tag("</th>")];
    TaggedTag(s2, "</th>");
    var s4 := s3 + [Tag("<th style=\"text-align:right\">")];
    TaggedTag(s3, "<th style=\"text-align:right\">");
    var s5 := s4 + Chars("Confidence");
    TaggedChars(s4, "Confidence");
    var s6 := s5 + [Tag("</th>")];
    TaggedTag(s5, "</th>");
    TaggedTag(s6, "</tr>");
  }

  lemma NoteWritten()
    ensures Render(NoteTokens) == Note
    ensures WellFormed(NoteTokens)
  {
    NoteStyleTag();
    NoteText();
    TagPiece(NoteStyle);
    var s1 := [Tag(NoteStyle)] + Chars(Note1);
    RenderedChars([Tag(NoteStyle)], Note1);
    var s2 := s1 + Chars(Note2);
    RenderedChars(s1, Note2);
    var s3 := s2 + Chars(Note3);
    RenderedChars(s2, Note3);
    RenderedTag(s3, "</p>");
  }

  lemma NoteTagged()
    ensures Tags(NoteTokens) == NoteTags
  {
    TagPiece(NoteStyle);
    var s1 := [Tag(NoteStyle)] + Chars(Note1);
    TaggedChars([Tag(NoteStyle)], Note1);
    var s2 := s1 + Chars(Note2);
    TaggedChars(s1, Note2);
    var s3 := s2 + Chars(Note3);
    TaggedChars(s2, Note3);
    TaggedTag(s3, "</p>");
  }

  lemma TableWritten(labels: seq<Label>, percent: Percent)
    ensures Render(TableTokens(labels, percent)) == Table(labels, percent)
    ensures WellFormed(TableTokens(labels, percent))
  {
    TableMarkup();
    TagPiece("<table>");
    HeaderRowWritten();
    BodyWritten(labels, percent);
    NoteWritten();
    var s1 := [Tag("<table>")] + [Tag("<thead>")];
    RenderedTag([Tag("<table>")], "<thead>");
    var s2 := s1 + HeaderRowTokens;
    Rendered(s1, HeaderRowTokens);
    var s3 := s2 + [Tag("</thead>")];
    RenderedTag(s2, "</thead>");
    var s4 := s3 + BodyTokens(labels, percent);
    Rendered(s3, BodyTokens(labels, percent));
    var s5 := s4 + [Tag("</table>")];
    RenderedTag(s4, "</table>");
    Rendered(s5, NoteTokens);
  }

  lemma TableTagged(labels: seq<Label>, percent: Percent)
    ensures Tags(TableTokens(labels, percent)) == TableTags(|labels|)
  {
    TagPiece("<table>");
    HeaderRowTagged();
    BodyTagged(labels, percent);
    NoteTagged();
    var s1 := [Tag("<table>")] + [Tag("<thead>")];
    TaggedTag([Tag("<table>")], "<thead>");
    var s2 := s1 + HeaderRowTokens;
    TagsAppend(s1, HeaderRowTokens);
    var s3 := s2 + [Tag("</thead>")];
    TaggedTag(s2, "</thead>");
    var s4 := s3 + BodyTokens(labels, percent);
    TagsAppend(s3, BodyTokens(labels, percent));
    var s5 := s4 + [Tag("</table>")];
    TaggedTag(s4, "</table>");
    TagsAppend(s5, NoteTokens);
  }

  lemma NoLabelsWritten()
    ensures Render(NoLabelsTokens) == NoLabels
    ensures WellFormed(NoLabelsTokens)
  {
    FootMarkup();
    TagPiece("<p>");
    var s1 := [Tag("<p>")] + Chars("No labels found.");
    RenderedChars([Tag("<p>")], "No labels found.");
    RenderedTag(s1, "</p>");
  }

  lemma NoLabelsTagged()
    ensures Tags(NoLabelsTokens) == NoLabelsTags
  {
    TagPiece("<p>");
    var s1 := [Tag("<p>")] + Chars("No labels found.");
    TaggedChars([Tag("<p>")], "No labels found.");
    TaggedTag(s1, "</p>");
  }

  lemma BackLinkWritten()
    ensures Render(BackLinkTokens) == BackLink
    ensures WellFormed(BackLinkTokens)
  {
    FootMarkup();
    TagPiece("<a href=\"/\">");
    var s1 := [Tag("<a href=\"/\">")] + Chars("Analyze another image");
    RenderedChars([Tag("<a href=\"/\">")], "Analyze another image");
    RenderedTag(s1, "</a>");
  }

  lemma BackLinkTagged()
    ensures Tags(BackLinkTokens) == BackLinkTags
  {
    TagPiece("<a href=\"/\">");
    var s1 := [Tag("<a href=\"/\">")] + Chars("Analyze another image");
    TaggedChars([Tag("<a href=\"/\">")], "Analyze another image");
    TaggedTag(s1, "</a>");
  }

  lemma FootWritten()
    ensures Render(FootTokens) == Foot
    ensures WellFormed(FootTokens)
  {
    FootMarkup();
    TagPiece("<p>");
    BackLinkWritten();
    var s1 := [Tag("<p>")] + BackLinkTokens;
    Rendered([Tag("<p>")], BackLinkTokens);
    var s2 := s1 + [Tag("</p>")];
    RenderedTag(s1, "</p>");
    var s3 := s2 + [Tag("</div>")];
    RenderedTag(s2, "</div>");
    var s4 := s3 + [Tag("</body>")];
    RenderedTag(s3, "</body>");
    RenderedTag(s4, "</html>");
  }

  lemma FootTagged()
    ensures Tags(FootTokens) == FootTags
  {
    TagPiece("<p>");
    BackLinkTagged();
    var s1 := [Tag("<p>")] + BackLinkTokens;
    TagsAppend([Tag("<p>")], BackLinkTokens);
    var s2 := s1 + [Tag("</p>")];
    TaggedTag(s1, "</p>");
    var s3 := s2 + [Tag("</div>")];
    TaggedTag(s2, "</div>");
    var s4 := s3 + [Tag("</body>")];
    TaggedTag(s3, "</body>");
    TaggedTag(s4, "</html>");
  }

  lemma TablePageWritten(filename: string, labels: seq<Label>, percent: Percent)
    requires |labels| > 0
    ensures Render(PageTokens(filename, labels, percent)) == BuildHtmlResult(filename, labels, percent)
    ensures WellFormed(PageTokens(filename, labels, percent))
  {
    HeadWritten(filename);
    TableWritten(labels, percent);
    FootWritten();
    Framed(HeadTokens(filename), TableTokens(labels, percent), FootTokens);
  }

  lemma NoLabelsPageWritten(filename: string, percent: Percent)
    ensures Render(PageTokens(filename, [], percent)) == BuildHtmlResult(filename, [], percent)
    ensures WellFormed(PageTokens(filename, [], percent))
  {
    HeadWritten(filename);
    NoLabelsWritten();
    FootWritten();
    Framed(HeadTokens(filename), NoLabelsTokens, FootTokens);
  }

  lemma PageWritten(filename: string, labels: seq<Label>, percent: Percent)
    ensures Render(PageTokens(filename, labels, percent)) == BuildHtmlResult(filename, labels, percent)
    ensures WellFormed(PageTokens(filename, labels, percent))
  {
    if |labels| > 0 {
      TablePageWritten(filename, labels, percent);
    } else {
      NoLabelsPageWritten(filename, percent);
    }
  }

  lemma PageTagged(filename: string, labels: seq<Label>, percent: Percent)
    ensures Tags(PageTokens(filename, labels, percent)) == PageTags(|labels|)
  {
    var middle := if |labels| > 0 then TableTokens(labels, percent) else NoLabelsTokens;
    HeadTagged(filename);
    if |labels| > 0 {
      TableTagged(labels, percent);
    } else {
      NoLabelsTagged();
    }
    FootTagged();
    TagsAppend(HeadTokens(filename), middle);
    TagsAppend(HeadTokens(filename) + middle, FootTokens);
  }

  // ---------------------------------------------------------------------------
  // What the result page shows

  /** The whole page reads as the head with the escaped file name in the title and the
      heading, then either the table of rows or the no-labels paragraph, then the back-link. */
  lemma PageReadsAs(filename: string, labels: seq<Label>, percent: Percent)
    ensures Lex(BuildHtmlResult(filename, labels, percent)) == PageTokens(filename, labels, percent)
  {
    PageWritten(filename, labels, percent);
    LexRender(PageTokens(filename, labels, percent));
  }

  /** The tags of the page, as `Lex` reads them, are the skeleton for its number
      of labels. */
  lemma PageMarkup(filename: string, labels: seq<Label>, percent: Percent)
    ensures Tags(Lex(BuildHtmlResult(filename, labels, percent))) == PageTags(|labels|)
  {
    PageReadsAs(filename, labels, percent);
    PageTagged(filename, labels, percent);
  }

  /** A row reads as one `<tr>` with two cells, the escaped description and the score
      followed by `%`, whatever the description holds. */
  lemma RowReadsAs(l: Label, percent: Percent)
    ensures Lex(Row(l, percent)) == RowTokens(l, percent)
  {
    RowWritten(l, percent);
    LexRender(RowTokens(l, percent));
  }

  /** The markup of the page depends on the number of labels only: no file name,
      description or score can add, remove or alter a tag. */
  lemma MarkupIndependentOfText(f1: string, ls1: seq<Label>, p1: Percent,
                                f2: string, ls2: seq<Label>, p2: Percent)
    requires |ls1| == |ls2|
    ensures Tags(Lex(BuildHtmlResult(f1, ls1, p1))) == Tags(Lex(BuildHtmlResult(f2, ls2, p2)))
  {
    PageMarkup(f1, ls1, p1);
    PageMarkup(f2, ls2, p2);
  }

  lemma {:induction false} RowTagsKinds(n: nat)
    ensures forall x | x in RowTags(n) :: x == "<tr>" || x == DescriptionCell || x == ScoreCell || x == "</td>" || x == "</tr>"
  {
    if n > 0 {
      RowTagsKinds(n - 1);
    }
  }

  lemma PageTagsTable(n: nat)
    ensures "<table>" in PageTags(n) <==> n > 0
  {
    assert "<table>" !in HeadTags;
    assert "<table>" !in FootTags;
    if n > 0 {
      assert "<table>" in TableTags(n);
    } else {
      assert "<table>" !in NoLabelsTags;
    }
  }

  /** The page holds a table exactly when there are labels. */
  lemma TableIffLabels(filename: string, labels: seq<Label>, percent: Percent)
    ensures "<table>" in Tags(Lex(BuildHtmlResult(filename, labels, percent))) <==> |labels| > 0
  {
    PageMarkup(filename, labels, percent);
    PageTagsTable(|labels|);
  }

  lemma TableTagsNoParagraph(n: nat)
    ensures "<p>" !in TableTags(n)
  {
    RowTagsKinds(n);
    assert "<p>" !in RowTags(n);
    assert NoteStyle != "<p>";
  }

  lemma FootTagsParagraph()
    ensures |FootTags| == 7 && FootTags[0] == "<p>" && FootTags[1] == "<a href=\"/\">"
    ensures forall k | 1 <= k < |FootTags| :: FootTags[k] != "<p>"
  {
  }

  /** With labels, no `<p>` of the page is followed at once by a `</p>`. */
  lemma PageTagsParagraphs(n: nat)
    requires n > 0
    ensures forall j | 0 <= j < |PageTags(n)| - 1 :: !(PageTags(n)[j] == "<p>" && PageTags(n)[j + 1] == "</p>")
  {
    var x := HeadTags + TableTags(n);
    var page := PageTags(n);
    assert "<p>" !in HeadTags;
    TableTagsNoParagraph(n);
    assert "<p>" !in x;
    FootTagsParagraph();
    forall j | 0 <= j < |page| - 1
      ensures !(page[j] == "<p>" && page[j + 1] == "</p>")
    {
      if j < |x| {
        assert page[j] == x[j];
      } else if j == |x| {
        assert page[j + 1] == FootTags[1];
      } else {
        assert page[j] == FootTags[j - |x|];
      }
    }
  }

  lemma PageTagsNoEmptyParagraph(n: nat)
    requires n > 0
    ensures !ContainsRun(PageTags(n), NoLabelsTags)
  {
    var page := PageTags(n);
    PageTagsParagraphs(n);
    forall j | 0 <= j <= |page|
      ensures !(NoLabelsTags <= page[j..])
    {
      if j + 1 < |page| {
        assert page[j..][0] == page[j] && page[j..][1] == page[j + 1];
      }
    }
  }

  lemma NoLabelsAbsent(filename: string, labels: seq<Label>, percent: Percent)
    requires |labels| > 0
    ensures !ContainsRun(PageTokens(filename, labels, percent), NoLabelsTokens)
  {
    var ts := PageTokens(filename, labels, percent);
    if ContainsRun(ts, NoLabelsTokens) {
      ContainsRunTags(ts, NoLabelsTokens);
      PageTagged(filename, labels, percent);
      NoLabelsTagged();
      PageTagsNoEmptyParagraph(|labels|);
    }
  }

  /** The page says "No labels found." in a paragraph of its own exactly when there are
      no labels. */
  lemma NoLabelsIffEmpty(filename: string, labels: seq<Label>, percent: Percent)
    ensures ContainsRun(Lex(BuildHtmlResult(filename, labels, percent)), NoLabelsTokens) <==> |labels| == 0
  {
    PageReadsAs(filename, labels, percent);
    if |labels| == 0 {
      ContainsRunWithin(HeadTokens(filename), NoLabelsTokens, FootTokens);
    } else {
      NoLabelsAbsent(filename, labels, percent);
    }
  }

  /** The escaped file name is the text of the title and of the emphasis in the heading. */
  lemma FileNameShown(filename: string, labels: seq<Label>, percent: Percent)
    ensures ContainsRun(Lex(BuildHtmlResult(filename, labels, percent)), TitleTokens(filename))
    ensures ContainsRun(Lex(BuildHtmlResult(filename, labels, percent)), NamedTokens(filename))
  {
    PageReadsAs(filename, labels, percent);
    var middle := if |labels| > 0 then TableTokens(labels, percent) else NoLabelsTokens;
    var pro := PrologueTokens(filename);
    var hd := HeadingTokens(filename);
    ContainsRunWithin([Tag("<!doctype html>")] + [Tag("<html>")] + [Tag("<head>")] + [Tag("<meta charset=\"utf-8\" />")],
      TitleTokens(filename), [Tag("</head>")]);
    ContainsRunWithin([Tag("<body>")] + [Tag("<div class=\"card\">")] + [Tag("<h2>")] + Chars("Detected labels for "),
      NamedTokens(filename), [Tag("</h2>")]);
    ContainsRunAppend(pro, hd, TitleTokens(filename));
    ContainsRunAppend(pro, hd, NamedTokens(filename));
    ContainsRunAppend(pro + hd, middle, TitleTokens(filename));
    ContainsRunAppend(pro + hd, middle, NamedTokens(filename));
    ContainsRunAppend(pro + hd + middle, FootTokens, TitleTokens(filename));
    ContainsRunAppend(pro + hd + middle, FootTokens, NamedTokens(filename));
  }

  lemma NumeralNoSpecials(s: Numeral)
    ensures forall i | 0 <= i < |s| :: s[i] !in Specials
  {
  }

  /** Once its entities are decoded, the text of the title and of the emphasis in the
      heading is the file name as uploaded. */
  lemma FileNameReadable(filename: string)
    ensures Unescape(Text(TitleTokens(filename))) == "Labels for " + filename
    ensures Unescape(Text(NamedTokens(filename))) == filename
  {
    TitleText(filename);
    NamedText(filename);
    EscapedAfter("Labels for ", filename);
    EscapeRoundTrip(filename);
  }

  /** Once its entities are decoded, the text of a row is the label's description
      followed by its score and `%`. */
  lemma RowReadable(l: Label, percent: Percent)
    ensures Unescape(Text(RowTokens(l, percent))) == l.description + percent(l.score) + "%"
  {
    var score := percent(l.score) + "%";
    RowText(l, percent);
    NumeralNoSpecials(percent(l.score));
    assert EscapeHtml(l.description) + percent(l.score) + "%" == EscapeHtml(l.description) + score;
    assert l.description + percent(l.score) + "%" == l.description + score;
    EscapedBefore(l.description, score);
  }

  /** The link back to the upload form is always there. */
  lemma BackLinkAlways(filename: string, labels: seq<Label>, percent: Percent)
    ensures ContainsRun(Lex(BuildHtmlResult(filename, labels, percent)), BackLinkTokens)
  {
    PageReadsAs(filename, labels, percent);
    var middle := if |labels| > 0 then TableTokens(labels, percent) else NoLabelsTokens;
    var s2 := [Tag("<p>")] + BackLinkTokens + [Tag("</p>")];
    ContainsRunWithin([Tag("<p>")], BackLinkTokens, [Tag("</p>")]);
    ContainsRunAppend(s2, [Tag("</div>")], BackLinkTokens);
    ContainsRunAppend(s2 + [Tag("</div>")], [Tag("</body>")], BackLinkTokens);
    ContainsRunAppend(s2 + [Tag("</div>")] + [Tag("</body>")], [Tag("</html>")], BackLinkTokens);
    ContainsRunAppend(HeadTokens(filename) + middle, FootTokens, BackLinkTokens);
  }

  lemma {:induction false} RowsContain(labels: seq<Label>, percent: Percent, k: nat)
    requires k < |labels|
    ensures ContainsRun(RowsTokens(labels, percent), RowTokens(labels[k], percent))
    decreases |labels|
  {
    var first := RowTokens(labels[0], percent);
    var rest := RowsTokens(labels[1..], percent);
    if k == 0 {
      ContainsRunSelf(first);
      ContainsRunAppend(first, rest, first);
    } else {
      RowsContain(labels[1..], percent, k - 1);
      assert labels[1..][k - 1] == labels[k];
      ContainsRunAppend(first, rest, RowTokens(labels[k], percent));
    }
  }

  lemma BodyOnPage(filename: string, labels: seq<Label>, percent: Percent)
    requires |labels| > 0
    ensures ContainsRun(PageTokens(filename, labels, percent), BodyTokens(labels, percent))
  {
    var body := BodyTokens(labels, percent);
    var before := [Tag("<table>")] + [Tag("<thead>")] + HeaderRowTokens + [Tag("</thead>")];
    ContainsRunWithin(before, body, [Tag("</table>")]);
    ContainsRunAppend(before + body + [Tag("</table>")], NoteTokens, body);
    ContainsRunAppend(HeadTokens(filename), TableTokens(labels, percent), body);
    ContainsRunAppend(HeadTokens(filename) + TableTokens(labels, percent), FootTokens, body);
  }

  lemma RowInBody(labels: seq<Label>, percent: Percent, k: nat)
    requires k < |labels|
    ensures ContainsRun(BodyTokens(labels, percent), RowTokens(labels[k], percent))
  {
    RowsContain(labels, percent, k);
    ContainsRunWithin([Tag("<tbody>")], RowsTokens(labels, percent), [Tag("</tbody>")]);
    ContainsRunTrans(BodyTokens(labels, percent), RowsTokens(labels, percent), RowTokens(labels[k], percent));
  }

  lemma RowOnPage(filename: string, labels: seq<Label>, percent: Percent, k: nat)
    requires k < |labels|
    ensures ContainsRun(PageTokens(filename, labels, percent), RowTokens(labels[k], percent))
  {
    BodyOnPage(filename, labels, percent);
    RowInBody(labels, percent, k);
    ContainsRunTrans(PageTokens(filename, labels, percent), BodyTokens(labels, percent), RowTokens(labels[k], percent));
  }

  /** With labels, the table body holds one row per label, in the labels' order, and
      each label's own row is on the page. */
  lemma LabelRowsShown(filename: string, labels: seq<Label>, percent: Percent)
    requires |labels| > 0
    ensures ContainsRun(Lex(BuildHtmlResult(filename, labels, percent)), BodyTokens(labels, percent))
    ensures forall k | 0 <= k < |labels| ::
      ContainsRun(Lex(BuildHtmlResult(filename, labels, percent)), RowTokens(labels[k], percent))
  {
    PageReadsAs(filename, labels, percent);
    BodyOnPage(filename, labels, percent);
    forall k | 0 <= k < |labels|
      ensures ContainsRun(PageTokens(filename, labels, percent), RowTokens(labels[k], percent))
    {
      RowOnPage(filename, labels, percent, k);
    }
  }
}
