/** The `/analyze` route of server.js: what the server answers to an upload. The
    label detection of the Vision service is a parameter, so the model covers
    every answer the service can give, including a thrown error. */
module Analyze {
  import opened HtmlEscape
  import opened Markup
  import opened ResultPage

  datatype Option<T> = None | Some(value: T)

  /** The uploaded file as multer hands it to the route, kept in memory. */
  datatype UploadedFile = UploadedFile(originalname: string, buffer: seq<bv8>)

  /** One label annotation of a Vision response. */
  datatype Annotation = Annotation(description: string, score: real)

  /** A thrown error: its `message` (empty when missing) and its `String(err)` form. */
  datatype Failure = Failure(message: string, asString: string)

  /** The outcome of `labelDetection` on an image: a response, whose
      `labelAnnotations` may be missing, or a thrown error. */
  datatype Detection = Detected(labelAnnotations: Option<seq<Annotation>>) | Thrown(failure: Failure)

  /** The Vision client's label detection, as a function of the image bytes. */
  type Vision = seq<bv8> -> Detection

  /** An HTTP answer: the status, the `Content-Type` the route sets itself, and the body. */
  datatype Response = Response(status: int, contentType: Option<string>, body: string)

  /** What one request leads to: the answer, the image sent to the Vision service
      (if any), and the error written to the log (if any). */
  datatype Outcome = Outcome(response: Response, visionRequest: Option<seq<bv8>>, logged: Option<Failure>)

  const HtmlType := "text/html; charset=utf-8"

  /** The answer when the form came without a file. */
  const NoFileBody := "<h2>" + "No file uploaded. " + "Please go back and choose an image." + "</h2>"

  /** The text shown for a thrown error: `err.message || String(err)`. */
  function ErrorText(f: Failure): string
  {
    if f.message != [] then f.message else f.asString
  }

  /** The answer when anything in the route throws. */
  function ErrorBody(f: Failure): string
  {
    "<h2>" + "Server error: " + EscapeHtml(ErrorText(f)) + "</h2>"
  }

  /** `(labelAnnotations || []).map(a => ({description, score}))`. */
  function ToLabels(annotations: Option<seq<Annotation>>): seq<Label>
  {
    match annotations
    case None => []
    case Some(anns) => seq(|anns|, i requires 0 <= i < |anns| => Label(anns[i].description, anns[i].score))
  }

  /** The route's answer to a request carrying `file`. */
  function HandleAnalyze(file: Option<UploadedFile>, vision: Vision, percent: Percent): (o: Outcome)
    ensures o.response.status == 400 <==> file.None?
    ensures o.response.status == 500 <==> file.Some? && vision(file.value.buffer).Thrown?
    ensures o.response.status == 200 <==> file.Some? && vision(file.value.buffer).Detected?
    ensures o.visionRequest == if file.Some? then Some(file.value.buffer) else None
    ensures o.logged.Some? <==> o.response.status == 500
    ensures o.response.contentType.Some? <==> o.response.status == 200
    ensures o.response.status == 200 ==> o.response.contentType == Some(HtmlType)
    ensures file.None? ==> o.response.body == NoFileBody
    ensures file.Some? && vision(file.value.buffer).Thrown? ==>
      o.response.body == ErrorBody(vision(file.value.buffer).failure) &&
      o.logged == Some(vision(file.value.buffer).failure)
    ensures file.Some? && vision(file.value.buffer).Detected? ==>
      o.response.body ==
        BuildHtmlResult(file.value.originalname, ToLabels(vision(file.value.buffer).labelAnnotations), percent)
  {
    match file
    case None =>
      Outcome(Response(400, None, NoFileBody), None, None)
    case Some(upload) =>
      match vision(upload.buffer)
      case Thrown(failure) =>
        Outcome(Response(500, None, ErrorBody(failure)), Some(upload.buffer), Some(failure))
      case Detected(annotations) =>
        var html := BuildHtmlResult(upload.originalname, ToLabels(annotations), percent);
        Outcome(Response(200, Some(HtmlType), html), Some(upload.buffer), None)
  }

  // ---------------------------------------------------------------------------

  lemma ErrorMarkup()
    ensures IsTag("<h2>") && IsTag("</h2>")
    ensures '<' !in "Server error: "
    ensures '<' !in "No file uploaded. " && '<' !in "Please go back and choose an image."
  {
  }

  function ErrorTokens(f: Failure): seq<Token>
  {
    [Tag("<h2>")] + Chars("Server error: ") + Chars(EscapeHtml(ErrorText(f))) + [Tag("</h2>")]
  }

  const NoFileTokens := [Tag("<h2>")] + Chars("No file uploaded. ") +
    Chars("Please go back and choose an image.") + [Tag("</h2>")]

  lemma ErrorBodyWritten(f: Failure)
    ensures Render(ErrorTokens(f)) == ErrorBody(f)
    ensures WellFormed(ErrorTokens(f))
  {
    ErrorMarkup();
    EscapeHtmlNoRaw(ErrorText(f));
    TagPiece("<h2>");
    var s1 := [Tag("<h2>")] + Chars("Server error: ");
    RenderedChars([Tag("<h2>")], "Server error: ");
    var s2 := s1 + Chars(EscapeHtml(ErrorText(f)));
    RenderedChars(s1, EscapeHtml(ErrorText(f)));
    RenderedTag(s2, "</h2>");
  }

  lemma ErrorBodyTagged(f: Failure)
    ensures Tags(ErrorTokens(f)) == ["<h2>"] + ["</h2>"]
  {
    TagPiece("<h2>");
    var s1 := [Tag("<h2>")] + Chars("Server error: ");
    TaggedChars([Tag("<h2>")], "Server error: ");
    var s2 := s1 + Chars(EscapeHtml(ErrorText(f)));
    TaggedChars(s1, EscapeHtml(ErrorText(f)));
    TaggedTag(s2, "</h2>");
  }

  lemma ErrorBodyText(f: Failure)
    ensures Text(ErrorTokens(f)) == "Server error: " + EscapeHtml(ErrorText(f))
  {
    TagPiece("<h2>");
    var s1 := [Tag("<h2>")] + Chars("Server error: ");
    TextAfterChars([Tag("<h2>")], "Server error: ");
    var s2 := s1 + Chars(EscapeHtml(ErrorText(f)));
    TextAfterChars(s1, EscapeHtml(ErrorText(f)));
    TextAfterTag(s2, "</h2>");
  }

  /** An error page reads as one heading whose text is the escaped error, whatever
      the error says. */
  lemma ErrorBodyReadsAs(f: Failure)
    ensures Lex(ErrorBody(f)) == ErrorTokens(f)
    ensures Tags(Lex(ErrorBody(f))) == ["<h2>"] + ["</h2>"]
  {
    ErrorBodyWritten(f);
    ErrorBodyTagged(f);
    LexRender(ErrorTokens(f));
  }

  /** Once its entities are decoded, the text of an error page is the error's message,
      or the error's string form when the message is empty. */
  lemma ErrorTextShown(f: Failure)
    ensures Unescape(Text(Lex(ErrorBody(f)))) == "Server error: " + ErrorText(f)
    ensures f.message != [] ==> Unescape(Text(Lex(ErrorBody(f)))) == "Server error: " + f.message
    ensures f.message == [] ==> Unescape(Text(Lex(ErrorBody(f)))) == "Server error: " + f.asString
  {
    var e := ErrorText(f);
    ErrorBodyWritten(f);
    LexRender(ErrorTokens(f));
    ErrorBodyText(f);
    assert Text(Lex(ErrorBody(f))) == "Server error: " + EscapeHtml(e);
    EscapedAfter("Server error: ", e);
  }

  lemma NoFileBodyWritten()
    ensures Render(NoFileTokens) == NoFileBody
    ensures WellFormed(NoFileTokens)
  {
    ErrorMarkup();
    TagPiece("<h2>");
    var s1 := [Tag("<h2>")] + Chars("No file uploaded. ");
    RenderedChars([Tag("<h2>")], "No file uploaded. ");
    var s2 := s1 + Chars("Please go back and choose an image.");
    RenderedChars(s1, "Please go back and choose an image.");
    RenderedTag(s2, "</h2>");
  }

  lemma NoFileBodyTagged()
    ensures Tags(NoFileTokens) == ["<h2>"] + ["</h2>"]
  {
    TagPiece("<h2>");
    var s1 := [Tag("<h2>")] + Chars("No file uploaded. ");
    TaggedChars([Tag("<h2>")], "No file uploaded. ");
    var s2 := s1 + Chars("Please go back and choose an image.");
    TaggedChars(s1, "Please go back and choose an image.");
    TaggedTag(s2, "</h2>");
  }

  /** The answer to a form without a file reads as one fixed heading. */
  lemma NoFileBodyReadsAs()
    ensures Lex(NoFileBody) == NoFileTokens
    ensures Tags(Lex(NoFileBody)) == ["<h2>"] + ["</h2>"]
  {
    NoFileBodyWritten();
    NoFileBodyTagged();
    LexRender(NoFileTokens);
  }

  /** Whatever the file name, the labels, the scores or the error say, the markup of
      the answer is fixed by the kind of answer and the number of labels. */
  lemma AnswerMarkup(file: Option<UploadedFile>, vision: Vision, percent: Percent)
    ensures var o := HandleAnalyze(file, vision, percent);
      Tags(Lex(o.response.body)) ==
        if file.Some? && vision(file.value.buffer).Detected? then
          PageTags(|ToLabels(vision(file.value.buffer).labelAnnotations)|)
        else ["<h2>"] + ["</h2>"]
  {
    match file
    case None =>
      NoFileBodyReadsAs();
    case Some(upload) =>
      match vision(upload.buffer)
      case Thrown(failure) =>
        ErrorBodyReadsAs(failure);
      case Detected(annotations) =>
        PageMarkup(upload.originalname, ToLabels(annotations), percent);
  }

  /** A response without `labelAnnotations` is shown as a page with no labels: the
      no-labels paragraph and no table. */
  lemma MissingAnnotationsShowNoLabels(upload: UploadedFile, vision: Vision, percent: Percent)
    requires vision(upload.buffer) == Detected(None)
    ensures var body := HandleAnalyze(Some(upload), vision, percent).response.body;
      ContainsRun(Lex(body), NoLabelsTokens) && "<table>" !in Tags(Lex(body))
  {
    NoLabelsIffEmpty(upload.originalname, [], percent);
    TableIffLabels(upload.originalname, [], percent);
  }

  /** A response whose `labelAnnotations` is an empty list is shown the same way: the
      no-labels paragraph and no table. */
  lemma NoAnnotationsShowNoLabels(upload: UploadedFile, vision: Vision, percent: Percent)
    requires vision(upload.buffer) == Detected(Some([]))
    ensures var body := HandleAnalyze(Some(upload), vision, percent).response.body;
      ContainsRun(Lex(body), NoLabelsTokens) && "<table>" !in Tags(Lex(body))
  {
    assert ToLabels(Some([])) == [];
    NoLabelsIffEmpty(upload.originalname, [], percent);
    TableIffLabels(upload.originalname, [], percent);
  }

  /** With at least one annotation, the page holds the table body with one row per
      annotation the service returns, in the service's order. */
  lemma AnnotationsInOrder(upload: UploadedFile, vision: Vision, percent: Percent, anns: seq<Annotation>)
    requires vision(upload.buffer) == Detected(Some(anns)) && |anns| > 0
    ensures var body := HandleAnalyze(Some(upload), vision, percent).response.body;
      ContainsRun(Lex(body), BodyTokens(ToLabels(Some(anns)), percent))
  {
    LabelRowsShown(upload.originalname, ToLabels(Some(anns)), percent);
  }

  /** Each annotation the service returns has its row on the page, holding its
      description and its score. */
  lemma AnnotationsShown(upload: UploadedFile, vision: Vision, percent: Percent, anns: seq<Annotation>, k: nat)
    requires vision(upload.buffer) == Detected(Some(anns)) && k < |anns|
    ensures var body := HandleAnalyze(Some(upload), vision, percent).response.body;
      ContainsRun(Lex(body), RowTokens(Label(anns[k].description, anns[k].score), percent))
  {
    var labels := ToLabels(Some(anns));
    LabelRowsShown(upload.originalname, labels, percent);
    assert labels[k] == Label(anns[k].description, anns[k].score);
  }
}
