# saas-on-gae: the `/analyze` route and its result page, in Dafny

The server takes an uploaded image and sends it to a label-detection service. It then
answers with an HTML page that lists each label with its confidence. This project models
the three pieces of `server.js` that decide what the user gets back:

- `escapeHtml` (module `HtmlEscape`, file `escape.dfy`). It is modelled as the chain of
  four global replacements the server runs: `&` first, then `<`, `>` and `"`. The
  lemmas prove that the chain is a per-character substitution (`Encode`), that a
  reverse chain undoes it, and what it does to the text.
- `buildHtmlResult` (module `ResultPage`, file `result_page.dfy`). The page is the
  concatenation of its fixed markup, the escaped file name and one row per label.
- The `/analyze` handler (module `Analyze`, file `analyze.dfy`). It is a pure function
  from the uploaded file, the label-detection service and the score formatter to the
  response. The response is the status, the content type the route sets and the body.
  The outcome also records the image sent to the service and the error logged, if any.

Page properties are stated through a simplified reading of HTML. Module `Markup`
(`markup.dfy`) defines a small lexer, `Lex`: a `<` opens a tag that runs to the next
`>`, and every other character is text. `LexRender` proves that a well-formed token
stream, written out and lexed again, gives back the same stream. Each page part is
proved to be written as its own token stream. So the lemmas can state what the page
holds: its tags, its text, and whether a given stretch of tokens appears. No file name,
description, score or error text can add a tag to the page or remove one.

## Model

| member | source | states |
|---|---|---|
| HtmlEscape.Entity | server.js:84-87 | a special character maps to a multi-character entity that starts with `&` and holds no other `&`; any other character maps to itself |
| HtmlEscape.EscapeHtmlIsEncode | server.js:82-88 | the four replacements in the source's order equal replacing each `&`, `<`, `>`, `"` by its entity in one left-to-right pass; `&` going first means no entity gets escaped twice |
| HtmlEscape.EscapeRoundTrip | server.js:82-88 | undoing the replacements in reverse order (`&quot;`, `&gt;`, `&lt;`, then `&amp;`) gives back the original text |
| HtmlEscape.EscapeInjective | server.js:82-88 | two different texts never escape to the same text |
| HtmlEscape.EscapeHtmlNoRaw | server.js:82-88 | the escaped text holds no raw `<`, `>` or `"` |
| HtmlEscape.EscapeHtmlAmpersands | server.js:82-88 | every `&` in the escaped text begins one of the four entities |
| HtmlEscape.EscapeHtmlLength | server.js:82-88 | the escaped length is the original length plus 4 per `&`, 3 per `<` or `>`, and 5 per `"` |
| HtmlEscape.EscapeHtmlFixedPoint | server.js:82-88 | escaping leaves a text unchanged exactly when the text holds none of the four special characters |
| HtmlEscape.EscapeHtmlAppend | server.js:82-88 | escaping a concatenation is the concatenation of the escaped parts |
| HtmlEscape.EscapeHtmlChar | server.js:84-87 | one character escapes to its entity |
| HtmlEscape.EscapedBetween | server.js:82-88 | an escaped text set between texts without special characters decodes back to the original text in the same place |
| ResultPage.PageWritten | server.js:45-80 | the page is the written form of a well-formed token stream: head, then the table or the no-labels paragraph, then the foot |
| ResultPage.PageReadsAs | server.js:45-80 | `Lex` reads the page as exactly that token stream, whatever the file name and labels hold |
| ResultPage.PageMarkup | server.js:45-80 | the page's tags, in order, are a skeleton fixed by the number of labels |
| ResultPage.MarkupIndependentOfText | server.js:45-80 | two pages with the same number of labels have the same tags, whatever their file names, descriptions and scores |
| ResultPage.RowReadsAs | server.js:46-50 | a row reads as `<tr>`, a cell with the escaped description, a cell with the score followed by `%`, then `</tr>` |
| ResultPage.RowsWritten | server.js:46-50 | the joined rows are the written form of the rows' token streams, in label order |
| ResultPage.TableIffLabels | server.js:67-75 | the page has a `<table>` tag exactly when there is at least one label |
| ResultPage.NoLabelsIffEmpty | server.js:67-75 | the page holds the paragraph `<p>No labels found.</p>` exactly when there are no labels |
| ResultPage.FileNameShown | server.js:56-66 | the title and the `<em>` of the heading each hold the escaped file name as a run of text |
| ResultPage.FileNameReadable | server.js:56-66 | decoded, the title's text is `Labels for ` followed by the file name as uploaded, and the `<em>` text is the file name |
| ResultPage.RowReadable | server.js:46-50 | decoded, a row's text is the label's description, then its formatted score, then `%` |
| ResultPage.BackLinkAlways | server.js:76 | the link `<a href="/">Analyze another image</a>` is on every page |
| ResultPage.LabelRowsShown | server.js:46-72 | with labels, the page holds the table body with the rows in label order, and each label's row appears on the page |
| Analyze.HandleAnalyze | server.js:18-42 | no file gives 400 with the no-file body and no call to the service. A thrown error gives 500 with the escaped error body, and the error is logged. A response gives 200 with `text/html; charset=utf-8` and the result page built from its labels. Only the 200 answer sets a content type, and only the 500 answer logs |
| Analyze.NoFileBodyReadsAs | server.js:20-22 | the no-file answer reads as a single `<h2>` heading |
| Analyze.ErrorBodyReadsAs | server.js:38-40 | an error answer reads as a single `<h2>` heading holding the escaped error text, whatever the error says |
| Analyze.ErrorTextShown | server.js:38-40 | decoded, the error answer's text is `Server error: ` followed by the error's message, or by its string form when the message is empty (`err.message \|\| String(err)`) |
| Analyze.AnswerMarkup | server.js:18-42 | an answer's tags are fixed by its kind: the page skeleton for the label count, or one `<h2>` heading |
| Analyze.MissingAnnotationsShowNoLabels | server.js:28-34 | a response without `labelAnnotations` gives a page with the no-labels paragraph and no table |
| Analyze.NoAnnotationsShowNoLabels | server.js:28-34 | a response whose `labelAnnotations` is an empty list gives a page with the no-labels paragraph and no table |
| Analyze.AnnotationsInOrder | server.js:28-34 | with at least one annotation, the page holds the table body built from the annotations: one row per annotation, in the service's order |
| Analyze.AnnotationsShown | server.js:28-34 | each annotation's row, holding its description and its score, appears on the page |

## Left out

- The `<style>` sheet in the page head (server.js:57-62) is not in the model. Nor are the template's line breaks and indentation between tags. Every other tag, attribute and text of the page is modelled.
- `(score*100).toFixed(1)` is a parameter, `percent`. Floating-point formatting and rounding are not modelled. The model only assumes that the formatted text uses the characters `toFixed` can produce (`Numeral`), so it holds no `<` and no character that needs escaping.
- Scores are `real`, not IEEE doubles.
- Descriptions, file names and error messages are strings. `String(s)` coercion of `undefined` or non-string values (server.js:83) is not modelled.
- The Vision client is a function from image bytes to a response or a thrown error. Its network behaviour, its asynchrony and the shape of its response beyond `labelAnnotations` are not modelled.
- Only the label-detection call can throw in the model. Rendering works on strings and cannot throw.
- `console.error` is recorded only as which error was logged. The text it prints is not modelled.
- `Analyze.HandleAnalyze`: `contentType` is `None` when the route does not set the header. The default Express picks for the 400 and 500 answers is not modelled.
- The multer set-up and its 5 MB limit are not modelled, and neither is the rejection of larger uploads, which happens before the route runs. Also left out: Express static serving of `public/` and `app.listen` with its port.
- `ResultPage.LabelRowsShown`: shows that every label's row is present, in order, within the table body. It does not count the `<tr>` tags on the page.
- `Markup.Lex` is a simplified reading of HTML. It handles tags, and it treats a `<` with no later `>` as text. Entities, comments and attribute quoting are not interpreted. Decoding entities is done separately with `HtmlEscape.Unescape`.
