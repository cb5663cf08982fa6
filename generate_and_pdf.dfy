/**
  `generate_and_pdf.py`, the stand-alone script: its own CSV reader, its own
  `send_email_via_outlook` (a fixed signature name first, no project
  signature, no template) and its `main`, which checks its inputs, generates
  and converts one document per record, then mails each PDF. The script's
  module-level settings are the parameter `s`; the filesystem, the Word and
  PDF steps and Outlook are the parameter `env`.
 */
module GenerateAndPdf {
  import opened Wrappers
  import opened Strings
  import opened Paths
  import opened FileUtils
  import opened SendAccounting
  import opened OutlookUtils
  import opened DocumentGeneration
  import Config

  // ---------------------------------------------------------------------
  // Reading the CSV file

  /** Reading raises partway through the file. */
  predicate ReadRaises(src: CsvSource) {
    src.raisesAt.Some? && src.raisesAt.value < |src.rows|
  }

  /**
    `read_rows`: the kept records of the whole file, in order; unlike
    `read_csv_rows`, a failure while reading propagates, so nothing is returned.
   */
  method ReadRows(src: CsvSource) returns (rows: Option<seq<Record>>)
    ensures ReadRaises(src) <==> rows.None?
    ensures rows.Some? ==> rows.value == CleanRows(src.rows)
    ensures rows.Some? ==> rows.value == CleanRows(Delivered(src))
  {
    var kept := CollectRows(src);
    if ReadRaises(src) {
      return None;
    }
    return Some(kept);
  }

  // ---------------------------------------------------------------------
  // The script's Outlook send

  /**
    The script's precedence: the global signature name when it is set, else
    the system signature when `use_signature` is set, else none; the
    project's signature file is never considered.
   */
  function ScriptSignatureSource(signatureName: Option<string>, useSignature: bool): (src: SignatureSource)
    ensures src != FromProject
    ensures src.ByName? <==> signatureName.Some? && signatureName.value != ""
    ensures src.ByName? ==> src.name == signatureName.value
    ensures src == FromSystem <==> (signatureName.None? || signatureName.value == "") && useSignature
  {
    SignatureSourceOf(false, signatureName, useSignature)
  }

  /** The error the script raises when every Send attempt was rejected (spelt without the accent). */
  function ScriptSendExhausted(to: string, maxRetries: int): string {
    "[MAIL] Echec envoi à " + to + " après " + IntToString(maxRetries) + " tentatives."
  }

  /**
    The script's module-level settings: the template and CSV paths, the two
    output folders, whether to mail, the sender, CC and BCC, the subject and
    body templates once formatted with a record's name, the signature
    switches, and whether signature images are embedded.
   */
  datatype ScriptSettings = ScriptSettings(
    template: Path,
    csvFile: Path,
    docxDir: string,
    pdfDir: string,
    sendEmail: bool,
    fromAccount: Option<string>,
    cc: string,
    bcc: string,
    subject: string -> string,
    body: string -> string,
    useSystemSignature: bool,
    signatureName: Option<string>,
    strictEmbed: bool)

  /** The mail the script's `send_email_via_outlook` composes: the body, then the signature its precedence picks. */
  function ScriptDraft(to: string, subject: string, htmlBody: string, attachments: seq<Path>, fromAccount: Option<string>,
                       cc: string, bcc: string, useSignature: bool, s: ScriptSettings, files: OutlookFiles): (draft: Draft)
    ensures draft.to == to && draft.subject == subject && draft.cc == cc && draft.bcc == bcc
    ensures draft.fromAccount == fromAccount && draft.attachments == attachments
    ensures |draft.html| >= |htmlBody| && draft.html[..|htmlBody|] == htmlBody
  {
    var sig := SignatureText(ScriptSignatureSource(s.signatureName, useSignature), files, s.strictEmbed);
    Draft(fromAccount, to, cc, bcc, subject, WithSignature(htmlBody, sig), attachments)
  }

  /**
    The script's `send_email_via_outlook`: the same MAPI session, CreateItem
    and Send retries as the package's, with the script's draft and its own
    exhaustion message.
   */
  method ScriptSendEmailViaOutlook(to: string, subject: string, htmlBody: string, attachments: seq<Path>,
                                   fromAccount: Option<string>, cc: string, bcc: string, useSignature: bool, maxRetries: int,
                                   s: ScriptSettings, env: OutlookEnv, files: OutlookFiles)
    returns (d: Delivery, mail: Option<MailItem>)
    ensures d == Dispatch(env.mapiError, env.create, env.send, maxRetries, ScriptSendExhausted(to, maxRetries))
    ensures mail.Some? <==> env.mapiError.None? && Retry.TransientResult(env.create, maxRetries).0.Succeeded?
    ensures mail.Some? ==> Composed(mail.value, ScriptDraft(to, subject, htmlBody, attachments, fromAccount, cc, bcc, useSignature, s, files), env.session)
  {
    var draft := ScriptDraft(to, subject, htmlBody, attachments, fromAccount, cc, bcc, useSignature, s, files);
    d, mail := DeliverMail(draft, env, maxRetries, ScriptSendExhausted(to, maxRetries));
  }

  // ---------------------------------------------------------------------
  // Generation and conversion

  /** The first record, from `from` on, whose generation or conversion raises. */
  function FirstFault(fault: nat -> Option<Stage>, n: nat, from: nat): (k: Option<nat>)
    ensures k.Some? ==> from <= k.value < n && fault(k.value).Some?
    ensures k.Some? ==> forall i :: from <= i < k.value ==> fault(i).None?
    ensures k.None? ==> forall i :: from <= i < n ==> fault(i).None?
    decreases n - from
  {
    if from >= n then None
    else if fault(from).Some? then Some(from)
    else FirstFault(fault, n, from + 1)
  }

  /**
    The generation loop of `main`: a Word file then a PDF file per record,
    numbered from 1, until the first record whose step raises. A Word file
    is kept when only its conversion fails.
   */
  method ScriptGenerate(rows: seq<Record>, docxDir: string, pdfDir: string, fault: nat -> Option<Stage>)
    returns (docx: seq<WordFile>, pdf: seq<PdfFile>, failedAt: Option<nat>)
    ensures failedAt == FirstFault(fault, |rows|, 0)
    ensures failedAt.None? ==> |pdf| == |rows| && |docx| == |rows|
    ensures failedAt.Some? ==> |pdf| == failedAt.value
    ensures failedAt.Some? ==> |docx| == |pdf| + (if fault(failedAt.value) == Some(Conversion) then 1 else 0)
    ensures forall i :: 0 <= i < |docx| ==> i < |rows| && docx[i] == WordFile(docxDir, i + 1, rows[i].name)
    ensures forall i :: 0 <= i < |pdf| ==> i < |docx| && pdf[i] == PdfFile(pdfDir, docx[i], rows[i].email)
  {
    docx, pdf := [], [];
    var i := 0;
    while i < |rows|
      invariant 0 <= i <= |rows|
      invariant |docx| == i && |pdf| == i
      invariant FirstFault(fault, |rows|, i) == FirstFault(fault, |rows|, 0)
      invariant forall k :: 0 <= k < i ==>
        docx[k] == WordFile(docxDir, k + 1, rows[k].name) && pdf[k] == PdfFile(pdfDir, docx[k], rows[k].email)
    {
      var f := fault(i);
      if f == Some(Generation) {
        return docx, pdf, Some(i);
      }
      var d := WordFile(docxDir, i + 1, rows[i].name);
      docx := docx + [d];
      if f.Some? {
        assert f.value == Conversion;
        return docx, pdf, Some(i);
      }
      pdf := pdf + [PdfFile(pdfDir, d, rows[i].email)];
      i := i + 1;
    }
    failedAt := None;
  }

  // ---------------------------------------------------------------------
  // Mailing

  /** What the mails meet: the paths that exist when they go out, the signature files, and the Outlook session of each row's send. */
  datatype ScriptMail = ScriptMail(atSend: set<Path>, files: OutlookFiles, outlook: nat -> OutlookEnv)

  /**
    What `main` meets: the paths that exist before it starts, the CSV
    reader, the failing step of each record, and what the mails meet.
   */
  datatype ScriptEnv = ScriptEnv(existing: set<Path>, csv: CsvSource, fault: nat -> Option<Stage>, mail: ScriptMail)

  /**
    Whether row `idx` is counted, given it has an address: its PDF was
    converted and exists, and its send returns.
   */
  predicate ScriptDelivers(pdf: seq<Path>, env: ScriptMail, idx: nat) {
    idx < |pdf| && pdf[idx] in env.atSend
    && Delivers(env.outlook(idx).mapiError, env.outlook(idx).create, env.outlook(idx).send, Config.MaxRetries)
  }

  /** `ScriptDelivers` for each row, as the count takes it. */
  function ScriptReturns(pdf: seq<Path>, env: ScriptMail): nat -> bool {
    (idx: nat) => ScriptDelivers(pdf, env, idx)
  }

  /**
    One pass of the mailing loop: a row with an address and an existing PDF
    is sent with that PDF alone attached; it counts when the send returned.
   */
  method ScriptSendRow(row: Record, idx: nat, pdf: seq<Path>, s: ScriptSettings, env: ScriptMail) returns (counted: bool)
    ensures counted == (HasEmail(row) && ScriptReturns(pdf, env)(idx))
  {
    counted := false;
    var to := Strip(row.email);
    StripNonEmptyIff(row.email);
    if to == "" {
      return;
    }
    if idx < |pdf| && pdf[idx] in env.atSend {
      var o := env.outlook(idx);
      var d, mail := ScriptSendEmailViaOutlook(to, s.subject(row.name), s.body(row.name), [pdf[idx]],
        s.fromAccount, s.cc, s.bcc, s.useSystemSignature, Config.MaxRetries, s, o, env.files);
      DispatchSentIff(o.mapiError, o.create, o.send, Config.MaxRetries, ScriptSendExhausted(to, Config.MaxRetries));
      counted := d.Sent?;
    }
  }

  /** The mailing loop of `main`: the number of rows whose send returned. */
  method ScriptSendAll(rows: seq<Record>, pdf: seq<Path>, s: ScriptSettings, env: ScriptMail) returns (sent: nat)
    ensures sent == SentCount(rows, ScriptReturns(pdf, env), |rows|)
  {
    var returned := ScriptReturns(pdf, env);
    sent := 0;
    var idx := 0;
    while idx < |rows|
      invariant 0 <= idx <= |rows|
      invariant sent == SentCount(rows, returned, idx)
    {
      var counted := ScriptSendRow(rows[idx], idx, pdf, s, env);
      if counted {
        sent := sent + 1;
      }
      idx := idx + 1;
    }
  }

  // ---------------------------------------------------------------------
  // main

  /** How `main` ends: with an exit code and the number of mails sent, or with an exception. */
  datatype ScriptOutcome =
    | Exited(code: int, sent: nat)
    | Uncaught(row: Option<nat>)

  /** Both input files exist. */
  predicate InputsFound(s: ScriptSettings, env: ScriptEnv) {
    s.template in env.existing && s.csvFile in env.existing
  }

  /** The inputs exist, the CSV file reads through, and it holds at least one record. */
  predicate Loaded(s: ScriptSettings, env: ScriptEnv) {
    InputsFound(s, env) && !ReadRaises(env.csv) && CleanRows(env.csv.rows) != []
  }

  /**
    `main`: exit code 1 for a missing template, then for a missing CSV
    file, then for a file without records; a Word step that raises escapes;
    the first conversion that fails gives exit code 2; otherwise the mails
    are sent when enabled and the exit code is 0.
   */
  method RunScript(s: ScriptSettings, env: ScriptEnv) returns (out: ScriptOutcome)
    ensures s.template !in env.existing ==> out == Exited(1, 0)
    ensures s.template in env.existing && s.csvFile !in env.existing ==> out == Exited(1, 0)
    ensures InputsFound(s, env) && ReadRaises(env.csv) ==> out == Uncaught(None)
    ensures InputsFound(s, env) && !ReadRaises(env.csv) && CleanRows(env.csv.rows) == [] ==> out == Exited(1, 0)
    ensures Loaded(s, env) ==>
      var rows := CleanRows(env.csv.rows);
      var stop := FirstFault(env.fault, |rows|, 0);
      (stop.Some? && env.fault(stop.value) == Some(Generation) ==> out == Uncaught(Some(stop.value)))
      && (stop.Some? && env.fault(stop.value) == Some(Conversion) ==> out == Exited(2, 0))
      && (stop.None? && s.sendEmail ==> out == Exited(0, SentCount(rows, ScriptReturns(PdfPaths(AllPdfs(rows, s.docxDir, s.pdfDir)), env.mail), |rows|)))
      && (stop.None? && !s.sendEmail ==> out == Exited(0, 0))
  {
    if s.template !in env.existing {
      return Exited(1, 0);
    }
    if s.csvFile !in env.existing {
      return Exited(1, 0);
    }
    var read := ReadRows(env.csv);
    if read.None? {
      return Uncaught(None);
    }
    var rows := read.value;
    if rows == [] {
      return Exited(1, 0);
    }
    var docx, pdf, failedAt := ScriptGenerate(rows, s.docxDir, s.pdfDir, env.fault);
    if failedAt.Some? {
      if env.fault(failedAt.value) == Some(Generation) {
        return Uncaught(failedAt);
      }
      return Exited(2, 0);
    }
    assert pdf == AllPdfs(rows, s.docxDir, s.pdfDir);
    var sent := 0;
    if s.sendEmail {
      sent := ScriptSendAll(rows, PdfPaths(pdf), s, env.mail);
    }
    return Exited(0, sent);
  }
}
