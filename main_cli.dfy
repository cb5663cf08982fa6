/**
  `main.py`: the command-line pipeline of `WordBatchGenerator` (check the
  environment, load the records, generate the batch, mail it) and the entry
  point that picks the window or the command line. Logging is left out;
  the filesystem, the failing steps and Outlook are the parameter `env`.
 */
module MainCli {
  import opened Wrappers
  import opened Strings
  import opened Paths
  import opened FileUtils
  import opened Validators
  import opened DocumentGeneration
  import opened SendAccounting
  import opened OutlookUtils
  import opened EmailSending
  import Config

  /**
    The configuration `main.py` imports (template, CSV file, output
    folders, whether mailing is on, the sender's settings) and what the run
    meets: the paths that exist, whether the output folders can be made,
    the CSV reader, the failing step of each record, and the Outlook side.
   */
  datatype CliEnv = CliEnv(
    template: Path,
    csvFile: Path,
    docxDir: string,
    pdfDir: string,
    sendEmail: bool,
    settings: Config.Settings,
    existing: set<Path>,
    mkdirError: Option<string>,
    csv: CsvSource,
    fault: nat -> Option<Stage>,
    mail: OutlookBatchEnv)

  /** The environment passes `validate_environment`'s three checks. */
  predicate EnvironmentValid(env: CliEnv) {
    ValidateTemplateFile(env.template, env.existing).0 && env.csvFile in env.existing && env.mkdirError.None?
  }

  /** The records `read_csv_rows` returns for the configured CSV file. */
  function CliRows(env: CliEnv): seq<Record> {
    if env.csvFile in env.existing then CleanRows(Delivered(env.csv)) else []
  }

  /** No record's Word or PDF step raises. */
  predicate BatchSucceeds(env: CliEnv, rows: seq<Record>) {
    forall i :: 0 <= i < |rows| ==> env.fault(i).None?
  }

  /** The exit code of `run`: 1 for a bad environment, no records, or a batch that raises; 0 otherwise. */
  function CliExitCode(env: CliEnv): (code: int)
    ensures code == 0 || code == 1
  {
    if !EnvironmentValid(env) then 1
    else if CliRows(env) == [] then 1
    else if !BatchSucceeds(env, CliRows(env)) then 1
    else 0
  }

  /**
    `run` succeeds exactly when the template exists with a `.docx` name, the
    CSV file exists, the folders can be made, the file holds a record, and
    no record's step raises.
   */
  lemma {:induction false} CliSucceedsIff(env: CliEnv)
    ensures CliExitCode(env) == 0 <==>
      env.template in env.existing && IsDocxName(env.template.name) && env.csvFile in env.existing
      && env.mkdirError.None? && CleanRows(Delivered(env.csv)) != []
      && forall i :: 0 <= i < |CleanRows(Delivered(env.csv))| ==> env.fault(i).None?
  {
    TemplateAcceptedIff(env.template, env.existing);
  }

  /** `WordBatchGenerator`: its mail sender, built from the configuration, and the generator of the last run. */
  class WordBatchGenerator {
    const emailSender: EmailSender
    var documentGenerator: DocumentGenerator?

    constructor (sendEmail: bool, settings: Config.Settings)
      ensures emailSender.enabled == sendEmail && emailSender.settings == settings
      ensures documentGenerator == null
    {
      emailSender := new EmailSender(sendEmail, settings);
      documentGenerator := null;
    }

    /**
      `validate_environment`: the template, then the CSV file, then the
      output folders; true when all three pass.
     */
    method ValidateEnvironment(env: CliEnv) returns (ok: bool)
      ensures ok <==> (env.template in env.existing && IsDocxName(env.template.name)
                       && env.csvFile in env.existing && env.mkdirError.None?)
      ensures ok == EnvironmentValid(env)
    {
      TemplateAcceptedIff(env.template, env.existing);
      var (valid, error) := ValidateTemplateFile(env.template, env.existing);
      if !valid {
        return false;
      }
      if env.csvFile !in env.existing {
        return false;
      }
      if env.mkdirError.Some? {
        return false;
      }
      return true;
    }

    /** `load_data`: the records `read_csv_rows` returned, whatever `validate_csv_data` reports about them. */
    method LoadData(env: CliEnv) returns (rows: seq<Record>)
      ensures rows == CliRows(env)
      ensures env.csvFile in env.existing ==> rows == CleanRows(Delivered(env.csv))
    {
      rows := ReadCsvRows(env.csvFile, env.existing, env.csv);
      if rows == [] {
        return [];
      }
      var valid, errors := ValidateCsvData(seq(|rows|, (k: int) requires 0 <= k < |rows| => RawRow(Some(rows[k].name), Some(rows[k].email))));
    }

    /**
      `generate_documents`: the batch's Word and PDF files, or `None` when
      the generator cannot be built or the batch re-raises.
     */
    method GenerateDocuments(rows: seq<Record>, env: CliEnv) returns (files: Option<(seq<WordFile>, seq<PdfFile>)>)
      modifies this
      ensures files.Some? <==> env.template in env.existing && BatchSucceeds(env, rows)
      ensures files.Some? ==> files.value.1 == AllPdfs(rows, env.docxDir, env.pdfDir)
      ensures files.Some? ==> |files.value.0| == |rows|
    {
      var made := DocumentGenerator.Open(env.template, env.existing);
      if made.Err? {
        return None;
      }
      documentGenerator := made.value;
      var out := made.value.GenerateDocumentsBatch(rows, env.docxDir, env.pdfDir, env.fault);
      if out.Raised? {
        return None;
      }
      assert out.pdf == AllPdfs(rows, env.docxDir, env.pdfDir);
      return Some((out.docx, out.pdf));
    }

    /** `send_emails`: the batch count of the configured sender. */
    method SendEmails(rows: seq<Record>, pdfFiles: seq<Path>, env: CliEnv) returns (sent: nat)
      ensures !emailSender.enabled ==> sent == 0
      ensures emailSender.enabled ==> sent == SentCount(rows, OutlookReturns(env.mail, emailSender.settings.maxRetries), |rows|)
    {
      sent := emailSender.SendEmailsBatch(rows, pdfFiles, env.mail);
    }

    /** `run`: the stages in order, the first that fails or raises giving 1. */
    method Run(env: CliEnv) returns (code: int)
      modifies this
      ensures code == CliExitCode(env)
    {
      var ok := ValidateEnvironment(env);
      if !ok {
        return 1;
      }
      var rows := LoadData(env);
      if rows == [] {
        return 1;
      }
      var files := GenerateDocuments(rows, env);
      if files.None? {
        return 1;
      }
      var sent := SendEmails(rows, PdfPaths(files.value.1), env);
      return 0;
    }
  }

  /**
    `main`: with `--gui` as the first argument the window is opened, and a
    missing window toolkit gives 1; otherwise the command-line run's code.
   */
  method MainDispatch(argv: seq<string>, guiAvailable: bool, env: CliEnv) returns (code: int)
    ensures |argv| > 1 && argv[1] == "--gui" ==> code == (if guiAvailable then 0 else 1)
    ensures !(|argv| > 1 && argv[1] == "--gui") ==> code == CliExitCode(env)
  {
    if |argv| > 1 && argv[1] == "--gui" {
      if guiAvailable {
        return 0;
      }
      return 1;
    }
    var generator := new WordBatchGenerator(env.sendEmail, env.settings);
    code := generator.Run(env);
  }
}
