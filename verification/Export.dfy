/** The metadata export as a whole: query, then print in one of the two formats. */
module Export {
  import opened Types
  import opened ExportData
  import Csv
  import CsvExport
  import Json
  import JsonExport

  datatype Format = JsonFormat | CsvFormat

  function Rendered(d: Document, format: Format, redact: bool): string {
    match format
    case JsonFormat => Json.Show(JsonExport.JsonDocument(d, redact))
    case CsvFormat => Csv.Print(CsvExport.CsvDocument(d, redact))
  }

  /** A parser for either format; `strict` tells whether JSON strings may hold raw control characters. */
  function ReadBack(text: string, format: Format, strict: bool): Option<Document> {
    match format
    case JsonFormat => JsonExport.ReadJson(text, strict)
    case CsvFormat => CsvExport.ReadCsv(text)
  }

  /** What becomes of the three statements: not prepared, or so many rows delivered before a step ends it. */
  datatype Steps = Steps(users: Option<nat>, secrets: Option<nat>, keks: Option<nat>)

  /** The rows collected, or None for SSM_ERR_INTERNAL. A step that fails is taken for the end of the rows. */
  function Collected(db: ExportTables, steps: Steps): Option<Document> {
    if steps.users.None? || steps.secrets.None? || steps.keks.None? then None
    else
      var d := Query(db);
      Some(Document(UpTo(d.users, steps.users.value), UpTo(d.secrets, steps.secrets.value),
                    UpTo(d.keks, steps.keks.value)))
  }

  /** export_metadata; without SSM_OK no text is given to the callback. */
  method ExportMetadata(db: ExportTables, format: Format, redact: bool, steps: Steps)
    returns (status: Status, text: string)
    ensures Collected(db, steps).None? ==> status == ErrInternal && text == ""
    ensures Collected(db, steps).Some? ==> status == Ok && text == Rendered(Collected(db, steps).value, format, redact)
  {
    if steps.users.None? { return ErrInternal, ""; }
    var users := UpTo(QueryUsers(db.users), steps.users.value);
    if steps.secrets.None? { return ErrInternal, ""; }
    var secrets := UpTo(QuerySecrets(db.users, db.secrets), steps.secrets.value);
    if steps.keks.None? { return ErrInternal, ""; }
    var keks := UpTo(QueryKeks(db.users, db.keks), steps.keks.value);
    var d := Document(users, secrets, keks);
    status := Ok;
    match format
    case JsonFormat => text := JsonExport.EmitJsonDocument(d, redact);
    case CsvFormat => text := CsvExport.EmitCsvDocument(d, redact);
  }

  /** No statement ends before it has delivered all of its rows. */
  predicate Complete(all: Document, steps: Steps)
    requires steps.users.Some? && steps.secrets.Some? && steps.keks.Some?
  {
    && steps.users.value >= |all.users| && steps.secrets.value >= |all.secrets|
    && steps.keks.value >= |all.keks|
  }

  /** The strict reader accepts every CSV text, and JSON without raw control characters in its strings. */
  predicate Acceptable(d: Document, format: Format) { format.JsonFormat? ==> JsonExport.CleanDocument(d) }

  lemma ReadsBack(d: Document, format: Format)
    ensures ReadBack(Rendered(d, format, false), format, false) == Some(d)
    ensures ReadBack(Rendered(d, format, false), format, true) == if Acceptable(d, format) then Some(d) else None
  {
    hide Json.Show;
    hide Csv.Print;
    hide JsonExport.ReadJson;
    hide CsvExport.ReadCsv;
    hide JsonExport.CleanDocument;
    match format
    case JsonFormat => JsonExport.JsonRoundTrip(d);
    case CsvFormat => CsvExport.CsvRoundTrip(d);
  }

  lemma NothingCutOff<T>(s: seq<T>, n: nat)
    ensures UpTo(s, n) == s <==> n >= |s|
  {
  }

  /**
   Reading an unredacted export back gives, for each table, the first rows of its report, as many as its
   statement delivered; these are all of them if and only if no statement ended early.
   */
  lemma ExportRoundTrip(db: ExportTables, steps: Steps, format: Format)
    returns (all: Document, secretPairs: seq<Pair>, kekPairs: seq<Pair>)
    requires Collected(db, steps).Some?
    ensures Reports(db, all, secretPairs, kekPairs)
    ensures var d := Document(UpTo(all.users, steps.users.value), UpTo(all.secrets, steps.secrets.value),
                              UpTo(all.keks, steps.keks.value));
      var text := Rendered(Collected(db, steps).value, format, false);
      && ReadBack(text, format, false) == Some(d)
      && ReadBack(text, format, true) == (if Acceptable(d, format) then Some(d) else None)
      && (d == all <==> Complete(all, steps))
  {
    all := Query(db);
    secretPairs, kekPairs := TablesReported(db);
    ReadsBack(Collected(db, steps).value, format);
    NothingCutOff(all.users, steps.users.value);
    NothingCutOff(all.secrets, steps.secrets.value);
    NothingCutOff(all.keks, steps.keks.value);
    hide UpTo;
    hide Query;
    hide Reports;
    hide Rendered;
    hide ReadBack;
    hide Acceptable;
  }

  lemma RedactionRenames(d: Document, format: Format)
    ensures Rendered(d, format, true) == Rendered(Redacted(d), format, false)
  {
    hide Json.Show;
    hide Csv.Print;
    JsonExport.RedactedJson(d);
    CsvExport.RedactedCsv(d);
  }

  /** A redacted export reads back as the rows collected with the names replaced, and nothing else changed. */
  lemma RedactedRoundTrip(db: ExportTables, steps: Steps, format: Format)
    requires Collected(db, steps).Some?
    ensures var d := Collected(db, steps).value;
      var text := Rendered(d, format, true);
      && ReadBack(text, format, false) == Some(Redacted(d))
      && ReadBack(text, format, true) == if Acceptable(Redacted(d), format) then Some(Redacted(d)) else None
  {
    var d := Collected(db, steps).value;
    RedactionRenames(d, format);
    ReadsBack(Redacted(d), format);
    hide Redacted;
    hide Rendered;
    hide ReadBack;
    hide Acceptable;
  }

  /** Databases that differ only in user names and private-key bytes have the same redacted export. */
  lemma RedactionHides(a: ExportTables, b: ExportTables, steps: Steps, format: Format)
    requires Alike(a, b) && Collected(a, steps).Some?
    ensures Collected(b, steps).Some?
    ensures Rendered(Collected(a, steps).value, format, true) == Rendered(Collected(b, steps).value, format, true)
  {
    QueriesAlike(a, b);
    var d, e := Collected(a, steps).value, Collected(b, steps).value;
    assert DocumentsAlike(d, e) by { hide Query; }
    AlikeRedacted(d, e);
    RedactionRenames(d, format);
    RedactionRenames(e, format);
    hide Rendered;
  }
}
