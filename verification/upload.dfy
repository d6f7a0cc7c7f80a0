/**
 * The upload path of controllers/FileController.js: the multer file filter and
 * size limit, then `uploadFile`'s choice of status and body. Reading the CSV
 * and writing the database row are parameters, and every call the handler makes
 * to them is recorded, so that "no parse" and "no insert" can be stated.
 */
module Upload {
  import opened Wrappers
  import opened Http

  /** The multer size limit: 5 MiB. */
  const MAX_FILE_SIZE: nat := 5 * 1024 * 1024

  const CSV_MIME_TYPE := "text/csv"
  const PREVIEW_ROWS: nat := 5

  const NOT_CSV_MESSAGE := "Only CSV files are allowed"
  /** The wording multer gives its own LIMIT_FILE_SIZE error. */
  const FILE_TOO_LARGE_MESSAGE := "File too large"
  const NO_FILE_MESSAGE := "No file uploaded"
  const DB_ERROR_MESSAGE := "Database error"
  const SUCCESS_MESSAGE := "File uploaded successfully"

  /** One parsed record: column name and cell text, in header order. */
  type Row = seq<(string, string)>

  /**
   * The file part of the multipart request. `path` and `filename` are what the
   * disk storage chose for it (a clock-dependent name under `uploads/`).
   */
  datatype IncomingFile = IncomingFile(mimetype: string, size: nat, path: string, filename: string)

  /** What the database callback receives: the new row's id, or an error. */
  datatype DbOutcome = Inserted(lastId: int) | DbFailed(error: string)

  /** A call the handler makes outside itself. */
  datatype Effect = ParseCalled(path: string) | InsertCalled(filename: string)

  datatype Body =
    | MessageOnly(message: string)
    | Uploaded(message: string, fileId: int, preview: seq<Row>, data: seq<Row>, totalRows: nat)

  datatype Response = Response(status: nat, body: Body)

  /** The response sent and the outside calls made on the way, in order. */
  datatype Handled = Handled(response: Response, effects: seq<Effect>)

  function Min(a: nat, b: nat): (m: nat) {
    if a <= b then a else b
  }

  /** The multer `fileFilter`: anything whose MIME type is not exactly `text/csv` is refused. */
  function FileFilter(mimetype: string): (r: Option<string>)
    ensures r.None? <==> mimetype == CSV_MIME_TYPE
    ensures r.Some? ==> r.value == NOT_CSV_MESSAGE
  {
    if mimetype != CSV_MIME_TYPE then Some(NOT_CSV_MESSAGE) else None
  }

  /**
   * The multer step: no file part means no file and no error; otherwise the
   * filter runs first and the size limit second.
   */
  function Receive(upload: Option<IncomingFile>): (r: Result<Option<IncomingFile>>)
    ensures upload.None? ==> r == Ok(None)
    ensures r.Ok? ==> r.value == upload
    ensures upload.Some? ==>
      (r.Ok? <==> upload.value.mimetype == CSV_MIME_TYPE && upload.value.size <= MAX_FILE_SIZE)
    ensures r.Err? ==> r.message in {NOT_CSV_MESSAGE, FILE_TOO_LARGE_MESSAGE}
  {
    match upload
    case None => Ok(None)
    case Some(file) =>
      match FileFilter(file.mimetype)
      case Some(message) => Err(message)
      case None =>
        if file.size > MAX_FILE_SIZE then Err(FILE_TOO_LARGE_MESSAGE) else Ok(upload)
  }

  /** `parsedData.slice(0, 5)`. */
  function Preview(rows: seq<Row>): (p: seq<Row>)
    ensures |p| == Min(PREVIEW_ROWS, |rows|)
    ensures p <= rows
  {
    rows[..Min(PREVIEW_ROWS, |rows|)]
  }

  /**
   * `uploadFile`. `parseCsv` stands for `parseCSV` (the csv-parse library reading
   * the stored file) and `insert` for the database insert of the stored name.
   */
  function UploadFile(
    upload: Option<IncomingFile>,
    parseCsv: string -> Result<seq<Row>>,
    insert: string -> DbOutcome): (h: Handled)
    ensures h.response.status in {OK, BAD_REQUEST, SERVER_ERROR}
    ensures h.response.status == BAD_REQUEST <==> Receive(upload).Err? || upload.None?
    ensures h.response.status == BAD_REQUEST ==> h.effects == []
    ensures h.response.status == SERVER_ERROR <==>
      && Receive(upload).Ok? && upload.Some?
      && (parseCsv(upload.value.path).Err? || insert(upload.value.filename).DbFailed?)
    ensures h.response.body.Uploaded? <==> h.response.status == OK
    ensures h.response.status == OK ==>
      && upload.Some?
      && parseCsv(upload.value.path).Ok?
      && insert(upload.value.filename).Inserted?
      && h.effects == [ParseCalled(upload.value.path), InsertCalled(upload.value.filename)]
      && h.response.body.data == parseCsv(upload.value.path).value
      && h.response.body.totalRows == |h.response.body.data|
      && h.response.body.preview <= h.response.body.data
      && |h.response.body.preview| == Min(PREVIEW_ROWS, h.response.body.totalRows)
  {
    match Receive(upload)
    case Err(message) => Handled(Response(BAD_REQUEST, MessageOnly(message)), [])
    case Ok(None) => Handled(Response(BAD_REQUEST, MessageOnly(NO_FILE_MESSAGE)), [])
    case Ok(Some(file)) =>
      var parsed := parseCsv(file.path);
      match parsed
      case Err(message) =>
        Handled(Response(SERVER_ERROR, MessageOnly(message)), [ParseCalled(file.path)])
      case Ok(rows) =>
        var effects := [ParseCalled(file.path), InsertCalled(file.filename)];
        match insert(file.filename)
        case DbFailed(_) => Handled(Response(SERVER_ERROR, MessageOnly(DB_ERROR_MESSAGE)), effects)
        case Inserted(id) =>
          Handled(Response(OK, Uploaded(SUCCESS_MESSAGE, id, Preview(rows), rows, |rows|)), effects)
  }

  /** The file is one the multer step lets through. */
  predicate Admissible(file: IncomingFile) {
    file.mimetype == CSV_MIME_TYPE && file.size <= MAX_FILE_SIZE
  }

  /** A non-CSV MIME type is a 400 with the filter's message, before any parse or insert. */
  lemma NonCsvRejected(file: IncomingFile, parseCsv: string -> Result<seq<Row>>, insert: string -> DbOutcome)
    requires file.mimetype != CSV_MIME_TYPE
    ensures UploadFile(Some(file), parseCsv, insert) == Handled(Response(BAD_REQUEST, MessageOnly(NOT_CSV_MESSAGE)), [])
  {
  }

  /** A CSV file over 5 MiB is a 400 with the size-limit message, before any parse or insert. */
  lemma OversizeRejected(file: IncomingFile, parseCsv: string -> Result<seq<Row>>, insert: string -> DbOutcome)
    requires file.mimetype == CSV_MIME_TYPE && file.size > MAX_FILE_SIZE
    ensures UploadFile(Some(file), parseCsv, insert) == Handled(Response(BAD_REQUEST, MessageOnly(FILE_TOO_LARGE_MESSAGE)), [])
  {
  }

  /** A request without a file part is a 400 "No file uploaded", with no parse and no insert. */
  lemma MissingFileRejected(parseCsv: string -> Result<seq<Row>>, insert: string -> DbOutcome)
    ensures UploadFile(None, parseCsv, insert) == Handled(Response(BAD_REQUEST, MessageOnly(NO_FILE_MESSAGE)), [])
  {
  }

  /** A parse failure is a 500 carrying the parser's message, and nothing is inserted. */
  lemma ParseFailureReported(file: IncomingFile, parseCsv: string -> Result<seq<Row>>, insert: string -> DbOutcome)
    requires Admissible(file) && parseCsv(file.path).Err?
    ensures UploadFile(Some(file), parseCsv, insert).response == Response(SERVER_ERROR, MessageOnly(parseCsv(file.path).message))
    ensures forall e | e in UploadFile(Some(file), parseCsv, insert).effects :: !e.InsertCalled?
  {
  }

  /** A failed insert after a good parse is a 500 "Database error" and no success body. */
  lemma DatabaseFailureReported(file: IncomingFile, parseCsv: string -> Result<seq<Row>>, insert: string -> DbOutcome)
    requires Admissible(file) && parseCsv(file.path).Ok? && insert(file.filename).DbFailed?
    ensures UploadFile(Some(file), parseCsv, insert).response == Response(SERVER_ERROR, MessageOnly(DB_ERROR_MESSAGE))
  {
  }

  /**
   * On success the body carries the id of the inserted row, the parsed rows
   * unchanged, their count, and their first five as the preview.
   */
  lemma SuccessBody(file: IncomingFile, parseCsv: string -> Result<seq<Row>>, insert: string -> DbOutcome)
    requires Admissible(file) && parseCsv(file.path).Ok? && insert(file.filename).Inserted?
    ensures var rows := parseCsv(file.path).value;
      UploadFile(Some(file), parseCsv, insert).response ==
        Response(OK, Uploaded(SUCCESS_MESSAGE, insert(file.filename).lastId, rows[..Min(PREVIEW_ROWS, |rows|)], rows, |rows|))
  {
  }

  /** The preview is fixed by the first five rows: rows after them never change it. */
  lemma {:induction false} PreviewIgnoresLaterRows(rows: seq<Row>, more: seq<Row>)
    requires |rows| >= PREVIEW_ROWS
    ensures Preview(rows + more) == Preview(rows)
  {
    assert (rows + more)[..PREVIEW_ROWS] == rows[..PREVIEW_ROWS];
  }

  /** A table of at most five rows is previewed whole. */
  lemma PreviewOfShortTable(rows: seq<Row>)
    requires |rows| <= PREVIEW_ROWS
    ensures Preview(rows) == rows
  {
  }
}
