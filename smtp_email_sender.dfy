/**
  `smtp_email_sender.py`: the SMTP sender's batch loop, the body and
  signature it composes, the recipient list it hands to `sendmail`, and its
  retry loop. The connection, login, MIME encoding and `sendmail` itself are
  an oracle: the outcome of the `k`-th attempt for row `i` is `attempts(i)(k)`.
 */
module SmtpEmail {
  import opened Wrappers
  import opened Strings
  import opened Paths
  import opened FileUtils
  import opened Retry
  import opened SendAccounting
  import opened OutlookUtils
  import Config

  // ---------------------------------------------------------------------
  // Recipients

  /** The stripped, non-empty pieces of `parts`, in order. */
  function Cleaned(parts: seq<string>): (xs: seq<string>)
    requires forall k :: 0 <= k < |parts| ==> ',' !in parts[k]
    ensures |xs| <= |parts|
    ensures forall k :: 0 <= k < |xs| ==> xs[k] != "" && Strip(xs[k]) == xs[k] && ',' !in xs[k]
    decreases |parts|
  {
    if parts == [] then []
    else
      var t := Strip(parts[0]);
      StripIdempotent(parts[0]);
      StripKeeps(parts[0], (c: char) => c != ',');
      (if t != "" then [t] else []) + Cleaned(parts[1..])
  }

  /** `[e.strip() for e in s.split(',') if e.strip()]`: the addresses of a comma-separated list. */
  function CleanList(s: string): (xs: seq<string>)
    ensures forall k :: 0 <= k < |xs| ==> xs[k] != "" && Strip(xs[k]) == xs[k] && ',' !in xs[k]
  {
    Cleaned(Split(s, ','))
  }

  /** An empty list names nobody. */
  lemma {:induction false} CleanListEmpty()
    ensures CleanList("") == []
  {
    var e: string := "";
    assert Find(e, [',']) == None;
    assert Split(e, ',') == [e];
    assert |Strip(e)| <= 0;
    assert [e][1..] == [];
  }

  /** Pieces already stripped and non-empty are kept as they are. */
  lemma {:induction false} CleanedOfClean(parts: seq<string>)
    requires forall k :: 0 <= k < |parts| ==> parts[k] != "" && Strip(parts[k]) == parts[k] && ',' !in parts[k]
    ensures Cleaned(parts) == parts
    decreases |parts|
  {
    if parts != [] {
      CleanedOfClean(parts[1..]);
    }
  }

  /**
    A list written as addresses joined by commas reads back as those
    addresses, as long as each is non-empty, unpadded and without a comma.
   */
  lemma {:induction false} CleanListOfJoin(addresses: seq<string>)
    requires |addresses| >= 1
    requires forall k :: 0 <= k < |addresses| ==> addresses[k] != "" && Strip(addresses[k]) == addresses[k] && ',' !in addresses[k]
    ensures CleanList(Join(addresses, ',')) == addresses
  {
    SplitJoin(addresses, ',');
    CleanedOfClean(addresses);
  }

  // ---------------------------------------------------------------------
  // Sending one message

  /** The `RuntimeError` raised when no attempt was made at all. */
  function SmtpExhausted(to: string, maxRetries: int): string {
    "[SMTP] Échec envoi à " + to + " après " + IntToString(maxRetries) + " tentatives."
  }

  /** What `_send_via_smtp` raises, or `None` when the message went out. */
  function SmtpFailure(outcome: nat -> Attempt, maxRetries: int, to: string): (raised: Option<string>)
    ensures maxRetries < 1 ==> raised == Some(SmtpExhausted(to, maxRetries))
  {
    match AnyResult(outcome, maxRetries).0
    case Succeeded(_) => None
    case Raised(m, _) => Some(m)
    case GaveUp => Some(SmtpExhausted(to, maxRetries))
  }

  /**
    When attempts are allowed, a send fails only after every allowed
    attempt failed, and then raises the last attempt's exception.
   */
  lemma {:induction false} SmtpFailsAfterEveryAttempt(outcome: nat -> Attempt, maxRetries: int, to: string)
    requires maxRetries >= 1 && SmtpFailure(outcome, maxRetries, to).Some?
    ensures AllFailed(outcome, maxRetries)
    ensures SmtpFailure(outcome, maxRetries, to) == Some(outcome(maxRetries - 1).message)
  {
    AnyResultPolicy(outcome, maxRetries);
    var r := AnyResult(outcome, maxRetries).0;
    assert r.Raised? && r.attempt == maxRetries - 1;
  }

  /** What one message is built from besides the row: the two project files, the date, the filesystem, and each row's attempts. */
  datatype SmtpEnv = SmtpEnv(
    template: FileRead,
    signature: FileRead,
    date: string,
    existing: set<Path>,
    readable: Path -> bool,
    attempts: nat -> nat -> Attempt)

  /** The message `_send_single_email` builds; `cc` and `bcc` headers are absent when empty. */
  datatype SmtpMessage = SmtpMessage(
    from: Option<string>,
    to: string,
    subject: string,
    cc: string,
    bcc: string,
    body: string,
    attachment: Option<Path>)

  /** `pdf_files[idx]` when the list reaches that far. */
  function PdfFor(pdfFiles: seq<Path>, idx: nat): (pdf: Option<Path>)
    ensures pdf.Some? <==> idx < |pdfFiles|
    ensures pdf.Some? ==> pdf.value == pdfFiles[idx]
  {
    if idx < |pdfFiles| then Some(pdfFiles[idx]) else None
  }

  /** Whether the send for row `idx` returns normally. */
  function SmtpReturns(env: SmtpEnv, maxRetries: int): nat -> bool {
    (idx: nat) => AnyResult(env.attempts(idx), maxRetries).0.Succeeded?
  }

  /** `SMTPEmailSender`: the settings it copied from the configuration when built. */
  class SmtpEmailSender {
    const enabled: bool
    const settings: Config.Settings

    constructor (enabled: bool, settings: Config.Settings)
      ensures this.enabled == enabled && this.settings == settings
    {
      this.enabled := enabled;
      this.settings := settings;
    }

    /** `_load_signature`: the project signature when it is enabled and its file can be read, otherwise nothing. */
    function LoadSignature(f: FileRead): (sig: string)
      ensures settings.useProjectSignature && f.Contents? ==> sig == f.text
      ensures !(settings.useProjectSignature && f.Contents?) ==> sig == ""
    {
      if settings.useProjectSignature && f.Contents? then f.text else ""
    }

    /**
      The body before the signature: the template file with its date filled
      in when templates are enabled and the file can be read, otherwise the
      fallback body.
     */
    function MainBody(env: SmtpEnv): (body: string)
      ensures settings.useEmailTemplate && env.template.Contents? ==> body == ReplaceAll(env.template.text, Config.DateMarker, env.date)
      ensures !(settings.useEmailTemplate && env.template.Contents?) ==> body == settings.fallbackBody
    {
      if settings.useEmailTemplate && env.template.Contents? then ReplaceAll(env.template.text, Config.DateMarker, env.date)
      else settings.fallbackBody
    }

    /** `_prepare_email_body`: the body, followed by the signature when there is one. */
    function PrepareEmailBody(env: SmtpEnv): (body: string)
      ensures |body| >= |MainBody(env)| && body[..|MainBody(env)|] == MainBody(env)
      ensures body == MainBody(env) <==> LoadSignature(env.signature) == ""
      ensures LoadSignature(env.signature) != "" ==> body[|MainBody(env)|..] == LoadSignature(env.signature)
    {
      WithSignature(MainBody(env), LoadSignature(env.signature))
    }

    /** A body taken from the template keeps no date marker. */
    lemma {:induction false} TemplateDateFilled(env: SmtpEnv)
      requires settings.useEmailTemplate && env.template.Contents?
      requires IsDateText(env.date)
      ensures !Contains(MainBody(env), Config.DateMarker)
    {
      DateFilled(env.template.text, env.date);
    }

    /** The recipients handed to `sendmail`: the addressee, then the CC list, then the BCC list. */
    method Recipients(to: string) returns (recipients: seq<string>)
      ensures recipients == [to] + CleanList(settings.cc) + CleanList(settings.bcc)
    {
      recipients := [to];
      CleanListEmpty();
      if settings.cc != "" {
        recipients := recipients + CleanList(settings.cc);
      }
      if settings.bcc != "" {
        recipients := recipients + CleanList(settings.bcc);
      }
    }

    /** `_send_via_smtp`: the recipients of every attempt, and the retry loop's outcome. */
    method SendViaSmtp(to: string, outcome: nat -> Attempt) returns (raised: Option<string>, recipients: seq<string>, sleeps: nat)
      ensures raised == SmtpFailure(outcome, settings.maxRetries, to)
      ensures recipients == [to] + CleanList(settings.cc) + CleanList(settings.bcc)
      ensures sleeps == AnyResult(outcome, settings.maxRetries).1
    {
      recipients := Recipients(to);
      var r;
      r, sleeps := RetryAny(outcome, settings.maxRetries);
      match r
      case Succeeded(_) =>
        raised := None;
      case Raised(m, _) =>
        raised := Some(m);
      case GaveUp =>
        raised := Some(SmtpExhausted(to, settings.maxRetries));
    }

    /** `_send_single_email` for row `idx`: the message built, and what the send raised. */
    method SendSingleEmail(row: Record, pdf: Option<Path>, env: SmtpEnv, idx: nat) returns (msg: SmtpMessage, raised: Option<string>)
      ensures msg.to == Strip(row.email) && msg.from == settings.fromAccount
      ensures msg.subject == settings.subjectTemplate && msg.cc == settings.cc && msg.bcc == settings.bcc
      ensures msg.body == PrepareEmailBody(env)
      ensures msg.attachment.Some? <==> pdf.Some? && pdf.value in env.existing && env.readable(pdf.value)
      ensures msg.attachment.Some? ==> msg.attachment == pdf
      ensures raised == SmtpFailure(env.attempts(idx), settings.maxRetries, Strip(row.email))
    {
      var to := Strip(row.email);
      var attachment := None;
      if pdf.Some? && pdf.value in env.existing && env.readable(pdf.value) {
        attachment := pdf;
      }
      msg := SmtpMessage(settings.fromAccount, to, settings.subjectTemplate, settings.cc, settings.bcc, PrepareEmailBody(env), attachment);
      var recipients, sleeps;
      raised, recipients, sleeps := SendViaSmtp(to, env.attempts(idx));
    }

    /** One pass of the batch loop: a row with an address is sent, and counts when the send returned. */
    method SendRow(row: Record, idx: nat, pdfFiles: seq<Path>, env: SmtpEnv) returns (counted: bool)
      ensures counted == (HasEmail(row) && SmtpReturns(env, settings.maxRetries)(idx))
    {
      counted := false;
      StripNonEmptyIff(row.email);
      if Strip(row.email) != "" {
        var msg, raised := SendSingleEmail(row, PdfFor(pdfFiles, idx), env, idx);
        counted := raised.None?;
      }
    }

    /**
      `send_emails_batch`: nothing is sent when the sender is disabled or no
      SMTP password is set; otherwise every row with an address is sent,
      with the PDF of the same position, and the sends that returned are counted.
     */
    method SendEmailsBatch(rows: seq<Record>, pdfFiles: seq<Path>, env: SmtpEnv) returns (sent: nat)
      ensures !enabled || settings.smtpPassword == "" ==> sent == 0
      ensures enabled && settings.smtpPassword != "" ==> sent == SentCount(rows, SmtpReturns(env, settings.maxRetries), |rows|)
    {
      if !enabled {
        return 0;
      }
      if settings.smtpPassword == "" {
        return 0;
      }
      sent := 0;
      var idx := 0;
      while idx < |rows|
        invariant 0 <= idx <= |rows|
        invariant sent == SentCount(rows, SmtpReturns(env, settings.maxRetries), idx)
      {
        var counted := SendRow(rows[idx], idx, pdfFiles, env);
        if counted {
          sent := sent + 1;
        }
        idx := idx + 1;
      }
    }
  }
}
