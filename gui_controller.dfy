/**
  `gui_controller.py`: what the window's controller decides once the user
  asks for a run, with the window itself left out: the input checks, the
  generation loop with its stop flag and per-record error handling, and
  the order of the pipeline's stages. The other thread's stop requests, the
  failing steps and the mail session are parameters.
 */
module GuiControl {
  import opened Wrappers
  import opened Strings
  import opened Paths
  import opened FileUtils
  import opened Validators
  import opened DocumentGeneration
  import opened SendAccounting
  import opened OutlookUtils
  import opened EmailSending
  import Config

  /** The fields of the window's state the controller reads. */
  datatype AppState = AppState(templatePath: Path, csvPath: Path, placeholder: string, sendEmail: bool, subject: string)

  /**
    `_validate_inputs`: the message of the first failing check (template,
    CSV file, placeholder, then subject when mailing is on), or none.
   */
  function ValidateInputs(state: AppState, existing: set<Path>): (error: Option<string>)
    ensures error.None? <==>
      ValidateTemplateFile(state.templatePath, existing).0 && state.csvPath in existing
      && Strip(state.placeholder) != "" && (state.sendEmail ==> Strip(state.subject) != "")
    ensures !ValidateTemplateFile(state.templatePath, existing).0 ==> error == Some(ValidateTemplateFile(state.templatePath, existing).1)
    ensures ValidateTemplateFile(state.templatePath, existing).0 && state.csvPath !in existing ==>
      error == Some("Fichier CSV introuvable: " + PathText(state.csvPath))
    ensures ValidateTemplateFile(state.templatePath, existing).0 && state.csvPath in existing && Strip(state.placeholder) == "" ==>
      error == Some("Le placeholder ne peut pas être vide.")
    ensures ValidateTemplateFile(state.templatePath, existing).0 && state.csvPath in existing
      && Strip(state.placeholder) != "" && state.sendEmail && Strip(state.subject) == ""
      ==> error == Some("Le sujet de l'email est requis.")
  {
    var (valid, message) := ValidateTemplateFile(state.templatePath, existing);
    if !valid then Some(message)
    else if state.csvPath !in existing then Some("Fichier CSV introuvable: " + PathText(state.csvPath))
    else if Strip(state.placeholder) == "" then Some("Le placeholder ne peut pas être vide.")
    else if state.sendEmail && Strip(state.subject) == "" then Some("Le sujet de l'email est requis.")
    else None
  }

  // ---------------------------------------------------------------------
  // What the generation loop keeps

  /**
    The Word files kept from the first `n` records: a record whose Word
    step raises is skipped, the others are numbered by their 1-based position.
   */
  function KeptDocx(rows: seq<Record>, docxDir: string, fault: nat -> Option<Stage>, n: nat): (ws: seq<WordFile>)
    requires n <= |rows|
    ensures |ws| <= n
  {
    if n == 0 then []
    else KeptDocx(rows, docxDir, fault, n - 1) + (if fault(n - 1) == Some(Generation) then [] else [WordFile(docxDir, n, rows[n - 1].name)])
  }

  /** The PDF files kept from the first `n` records: those whose both steps returned. */
  function KeptPdfs(rows: seq<Record>, docxDir: string, pdfDir: string, fault: nat -> Option<Stage>, n: nat): (ps: seq<PdfFile>)
    requires n <= |rows|
    ensures |ps| <= |KeptDocx(rows, docxDir, fault, n)|
  {
    if n == 0 then []
    else KeptPdfs(rows, docxDir, pdfDir, fault, n - 1) + (if fault(n - 1).None? then [PdfFile(pdfDir, WordFile(docxDir, n, rows[n - 1].name), rows[n - 1].email)] else [])
  }

  /** The records among the first `n` whose PDF was produced, in order. */
  function ConvertedRows(rows: seq<Record>, fault: nat -> Option<Stage>, n: nat): seq<Record>
    requires n <= |rows|
  {
    if n == 0 then []
    else ConvertedRows(rows, fault, n - 1) + (if fault(n - 1).None? then [rows[n - 1]] else [])
  }

  /** One more record: what each of the three lists gains from it. */
  lemma {:induction false} KeptStep(rows: seq<Record>, docxDir: string, pdfDir: string, fault: nat -> Option<Stage>, i: nat)
    requires i < |rows|
    ensures KeptDocx(rows, docxDir, fault, i + 1)
      == KeptDocx(rows, docxDir, fault, i) + (if fault(i) == Some(Generation) then [] else [WordFile(docxDir, i + 1, rows[i].name)])
    ensures KeptPdfs(rows, docxDir, pdfDir, fault, i + 1)
      == KeptPdfs(rows, docxDir, pdfDir, fault, i) + (if fault(i).None? then [PdfFile(pdfDir, WordFile(docxDir, i + 1, rows[i].name), rows[i].email)] else [])
    ensures ConvertedRows(rows, fault, i + 1) == ConvertedRows(rows, fault, i) + (if fault(i).None? then [rows[i]] else [])
  {
  }

  /**
    Every kept Word file is numbered by the 1-based position of its record
    and carries that record's name, in increasing order.
   */
  lemma {:induction false} KeptDocxNumbered(rows: seq<Record>, docxDir: string, fault: nat -> Option<Stage>, n: nat)
    requires n <= |rows|
    ensures forall k :: 0 <= k < |KeptDocx(rows, docxDir, fault, n)| ==>
      var w := KeptDocx(rows, docxDir, fault, n)[k];
      1 <= w.index <= n && w.dir == docxDir && w.name == rows[w.index - 1].name
    ensures forall k, l :: 0 <= k < l < |KeptDocx(rows, docxDir, fault, n)| ==>
      KeptDocx(rows, docxDir, fault, n)[k].index < KeptDocx(rows, docxDir, fault, n)[l].index
  {
    if n > 0 {
      KeptDocxNumbered(rows, docxDir, fault, n - 1);
    }
  }

  /** The kept PDF files line up with the converted records: each was made for the record at its position. */
  lemma {:induction false} PdfsMatchConverted(rows: seq<Record>, docxDir: string, pdfDir: string, fault: nat -> Option<Stage>, n: nat)
    requires n <= |rows|
    ensures |KeptPdfs(rows, docxDir, pdfDir, fault, n)| == |ConvertedRows(rows, fault, n)|
    ensures forall k :: 0 <= k < |ConvertedRows(rows, fault, n)| ==>
      KeptPdfs(rows, docxDir, pdfDir, fault, n)[k].source.name == ConvertedRows(rows, fault, n)[k].name
      && KeptPdfs(rows, docxDir, pdfDir, fault, n)[k].email == ConvertedRows(rows, fault, n)[k].email
  {
    if n > 0 {
      PdfsMatchConverted(rows, docxDir, pdfDir, fault, n - 1);
    }
  }

  /**
    The records and PDF files as `_run_generation` hands them to the sender,
    which pairs them by position: once a record's conversion fails, the next
    record's PDF goes to it. Here the first of two records gets the second
    one's PDF.
   */
  lemma {:induction false} MisattachedPdf(docxDir: string, pdfDir: string)
    ensures var rows := [Record("A", "a@example.com"), Record("B", "b@example.com")];
      var fault := (i: nat) => if i == 0 then Some(Conversion) else None;
      var pdf := KeptPdfs(rows, docxDir, pdfDir, fault, 2);
      |pdf| == 1 && pdf[0].source.name == rows[1].name != rows[0].name && pdf[0].email == rows[1].email
  {
    var rows := [Record("A", "a@example.com"), Record("B", "b@example.com")];
    var fault := (i: nat) => if i == 0 then Some(Conversion) else None;
    assert KeptPdfs(rows, docxDir, pdfDir, fault, 1) == [];
    assert KeptPdfs(rows, docxDir, pdfDir, fault, 2) == [PdfFile(pdfDir, WordFile(docxDir, 2, "B"), "b@example.com")];
  }

  /**
    What the sender then does with that pairing (`_send_emails(rows,
    pdf_files)`): record A's mail carries B's PDF, and B's mail, the last
    converted record's, carries none.
   */
  lemma {:induction false} MisattachedMail(docxDir: string, pdfDir: string, existing: set<Path>)
    requires PdfFilePath(PdfFile(pdfDir, WordFile(docxDir, 2, "B"), "b@example.com")) in existing
    ensures var rows := [Record("A", "a@example.com"), Record("B", "b@example.com")];
      var fault := (i: nat) => if i == 0 then Some(Conversion) else None;
      var files := PdfPaths(KeptPdfs(rows, docxDir, pdfDir, fault, 2));
      BatchAttachments(files, 0, existing) == [PdfFilePath(PdfFile(pdfDir, WordFile(docxDir, 2, rows[1].name), rows[1].email))]
      && BatchAttachments(files, 1, existing) == []
  {
    var rows := [Record("A", "a@example.com"), Record("B", "b@example.com")];
    var fault := (i: nat) => if i == 0 then Some(Conversion) else None;
    MisattachedPdf(docxDir, pdfDir);
    assert KeptPdfs(rows, docxDir, pdfDir, fault, 1) == [];
    assert KeptPdfs(rows, docxDir, pdfDir, fault, 2) == [PdfFile(pdfDir, WordFile(docxDir, 2, "B"), "b@example.com")];
  }

  /**
    After a stop request at record `stop`, the records never processed are
    still handed to the sender as written, and the PDF list ends before
    them: each of them with an address is mailed with no attachment.
   */
  lemma {:induction false} StoppedRowsMailedBare(rows: seq<Record>, docxDir: string, pdfDir: string,
                                                 fault: nat -> Option<Stage>, stop: nat, existing: set<Path>, k: nat)
    requires stop <= k < |rows|
    ensures BatchAttachments(PdfPaths(KeptPdfs(rows, docxDir, pdfDir, fault, stop)), k, existing) == []
  {
    assert |KeptPdfs(rows, docxDir, pdfDir, fault, stop)| <= |KeptDocx(rows, docxDir, fault, stop)| <= stop;
  }

  /** The first check, from `from` on, at which the stop flag is found set; `n` when none is. */
  function FirstRequest(requests: nat -> bool, n: nat, from: nat): (k: nat)
    requires from <= n
    ensures from <= k <= n
    ensures k < n ==> requests(k)
    ensures forall i :: from <= i < k ==> !requests(i)
    decreases n - from
  {
    if from == n then n
    else if requests(from) then from
    else FirstRequest(requests, n, from + 1)
  }

  /** The record before which the loop stops: at once when the flag is already set. */
  function StopAt(already: bool, requests: nat -> bool, n: nat): nat {
    if already then 0 else FirstRequest(requests, n, 0)
  }

  // ---------------------------------------------------------------------
  // The controller

  /**
    What one run meets: the paths that exist, whether the output folders can
    be made, the CSV reader, the failing step of each record, the stop
    requests, the configured output folders, the sender's settings, its
    Outlook side, and whether the sender itself raises.
   */
  datatype GuiEnv = GuiEnv(
    existing: set<Path>,
    mkdirError: Option<string>,
    csv: CsvSource,
    fault: nat -> Option<Stage>,
    requests: nat -> bool,
    docxDir: string,
    pdfDir: string,
    settings: Config.Settings,
    mail: OutlookBatchEnv,
    senderRaises: bool)

  /** How `_run_generation` ends. */
  datatype GuiRun =
    | Fatal(message: string)
    | NoRows
    | NoDocuments
    | Summary(docx: nat, pdf: nat, sent: nat, total: nat)

  /** How `start_generation` ends. */
  datatype StartOutcome = Busy | Invalid(message: string) | Ran(run: GuiRun)

  /** The records `read_csv_rows` returns for the state's CSV file. */
  function LoadedRows(state: AppState, env: GuiEnv): seq<Record> {
    if state.csvPath in env.existing then CleanRows(Delivered(env.csv)) else []
  }

  /** What the mailing step counts for the converted records and their PDF files. */
  function MailCount(env: GuiEnv, converted: seq<Record>): nat {
    if env.senderRaises then 0 else SentCount(converted, OutlookReturns(env.mail, env.settings.maxRetries), |converted|)
  }

  /** A kept record as `validate_csv_data` reads it: both columns present. */
  function AsRaw(r: Record): RawRow {
    RawRow(Some(r.name), Some(r.email))
  }

  /**
    How `_run_generation` ends when the stop flag reads `already` as it
    starts: a failure to make the output folders is fatal; no records, or no
    Word file produced, ends the run quietly; otherwise the summary reports
    the counts, the mails going out only when enabled.
   */
  predicate RunOutcome(state: AppState, env: GuiEnv, already: bool, out: GuiRun) {
    (env.mkdirError.Some? ==> out == Fatal("Impossible de créer les répertoires de sortie: " + env.mkdirError.value))
    && (env.mkdirError.None? && LoadedRows(state, env) == [] ==> out == NoRows)
    && (env.mkdirError.None? && LoadedRows(state, env) != [] ==>
      var rows := LoadedRows(state, env);
      var stop := StopAt(already, env.requests, |rows|);
      var docx := if state.templatePath in env.existing then KeptDocx(rows, env.docxDir, env.fault, stop) else [];
      var pdf := if state.templatePath in env.existing then KeptPdfs(rows, env.docxDir, env.pdfDir, env.fault, stop) else [];
      var converted := if state.templatePath in env.existing then ConvertedRows(rows, env.fault, stop) else [];
      (docx == [] ==> out == NoDocuments)
      && (docx != [] ==> out == Summary(|docx|, |pdf|, if state.sendEmail then MailCount(env, converted) else 0, |rows|)))
  }

  /** `GUIController`: the flag the window's stop button sets. */
  class GuiController {
    var stopRequested: bool

    constructor ()
      ensures !stopRequested
    {
      stopRequested := false;
    }

    /** `request_stop`. */
    method RequestStop()
      modifies this
      ensures stopRequested
    {
      stopRequested := true;
    }

    /**
      The loop of `_generate_documents`. Before each record the flag is read
      (`requests(i)` says the window set it since the last check) and the
      loop stops once it is set; a record whose Word step raises is skipped,
      one whose conversion raises keeps its Word file only. With no
      template, nothing is produced.
     */
    method GenerateDocuments(rows: seq<Record>, templatePath: Path, existing: set<Path>, docxDir: string, pdfDir: string,
                             fault: nat -> Option<Stage>, requests: nat -> bool)
      returns (docx: seq<WordFile>, pdf: seq<PdfFile>, converted: seq<Record>)
      modifies this
      ensures templatePath !in existing ==> docx == [] && pdf == [] && converted == [] && stopRequested == old(stopRequested)
      ensures templatePath in existing ==>
        var stop := StopAt(old(stopRequested), requests, |rows|);
        docx == KeptDocx(rows, docxDir, fault, stop) && pdf == KeptPdfs(rows, docxDir, pdfDir, fault, stop)
        && converted == ConvertedRows(rows, fault, stop)
        && stopRequested == (old(stopRequested) || stop < |rows|)
    {
      docx, pdf, converted := [], [], [];
      var generator := DocumentGenerator.Open(templatePath, existing);
      if generator.Err? {
        return;
      }
      var i := 0;
      while i < |rows|
        invariant 0 <= i <= |rows|
        invariant stopRequested == old(stopRequested)
        invariant old(stopRequested) ==> i == 0
        invariant !old(stopRequested) ==> FirstRequest(requests, |rows|, i) == FirstRequest(requests, |rows|, 0)
        invariant docx == KeptDocx(rows, docxDir, fault, i) && pdf == KeptPdfs(rows, docxDir, pdfDir, fault, i)
        invariant converted == ConvertedRows(rows, fault, i)
      {
        if requests(i) {
          stopRequested := true;
        }
        if stopRequested {
          break;
        }
        KeptStep(rows, docxDir, pdfDir, fault, i);
        var f := fault(i);
        if f != Some(Generation) {
          var d := WordFile(docxDir, i + 1, rows[i].name);
          docx := docx + [d];
          if f.None? {
            pdf := pdf + [PdfFile(pdfDir, d, rows[i].email)];
            converted := converted + [rows[i]];
          }
        }
        i := i + 1;
      }
    }

    /** `_send_emails`: the batch count, or 0 when the sender raises. */
    method SendEmails(rows: seq<Record>, pdfFiles: seq<Path>, env: GuiEnv) returns (sent: nat)
      ensures sent == MailCount(env, rows)
    {
      if env.senderRaises {
        return 0;
      }
      var sender := new EmailSender(true, env.settings);
      sent := sender.SendEmailsBatch(rows, pdfFiles, env.mail);
    }

    /**
      `_run_generation`, ending as `RunOutcome` says for the flag as it was.
      Each PDF is mailed to the record it was made for.
     */
    method RunGeneration(state: AppState, env: GuiEnv) returns (out: GuiRun)
      modifies this
      ensures RunOutcome(state, env, old(stopRequested), out)
    {
      if env.mkdirError.Some? {
        return Fatal("Impossible de créer les répertoires de sortie: " + env.mkdirError.value);
      }
      var rows := ReadCsvRows(state.csvPath, env.existing, env.csv);
      if rows == [] {
        return NoRows;
      }
      var valid, errors := ValidateCsvData(seq(|rows|, (k: int) requires 0 <= k < |rows| => AsRaw(rows[k])));
      var docx, pdf, converted := GenerateDocuments(rows, state.templatePath, env.existing, env.docxDir, env.pdfDir, env.fault, env.requests);
      if docx == [] {
        return NoDocuments;
      }
      var sent := 0;
      if state.sendEmail {
        sent := SendEmails(converted, PdfPaths(pdf), env);
      }
      return Summary(|docx|, |pdf|, sent, |rows|);
    }

    /**
      `start_generation`: refused while a run is in progress; otherwise the
      stop flag is cleared, the inputs are checked, and the run proceeds
      from a cleared flag.
     */
    method StartGeneration(state: AppState, env: GuiEnv, workerAlive: bool) returns (out: StartOutcome)
      modifies this
      ensures workerAlive ==> out == Busy && stopRequested == old(stopRequested)
      ensures !workerAlive && ValidateInputs(state, env.existing).Some? ==>
        out == Invalid(ValidateInputs(state, env.existing).value) && !stopRequested
      ensures !workerAlive && ValidateInputs(state, env.existing).None? ==> out.Ran? && RunOutcome(state, env, false, out.run)
    {
      if workerAlive {
        return Busy;
      }
      stopRequested := false;
      var error := ValidateInputs(state, env.existing);
      if error.Some? {
        return Invalid(error.value);
      }
      var run := RunGeneration(state, env);
      return Ran(run);
    }
  }
}
