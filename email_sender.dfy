/**
  `email_sender.py`: the Outlook sender, which builds one
  `send_email_via_outlook` call per row with an address and counts the
  calls that returned.
 */
module EmailSending {
  import opened Wrappers
  import opened Strings
  import opened Paths
  import opened FileUtils
  import opened SendAccounting
  import opened OutlookUtils
  import Config

  /**
    What the sends of a batch meet: the filesystem, the files Outlook's
    side reads, and the Outlook session met by the send for each row.
   */
  datatype OutlookBatchEnv = OutlookBatchEnv(existing: set<Path>, files: OutlookFiles, outlook: nat -> OutlookEnv)

  /** Whether the send for row `idx` returns normally. */
  function OutlookReturns(env: OutlookBatchEnv, maxRetries: int): nat -> bool {
    (idx: nat) => Delivers(env.outlook(idx).mapiError, env.outlook(idx).create, env.outlook(idx).send, maxRetries)
  }

  /**
    The attachments `send_emails_batch` gives the mail of row `idx`: the PDF
    at the same position of the list it was handed, when the list reaches
    that far and the file exists, and none otherwise.
   */
  function BatchAttachments(pdfFiles: seq<Path>, idx: nat, existing: set<Path>): (atts: seq<Path>)
    ensures atts != [] <==> idx < |pdfFiles| && pdfFiles[idx] in existing
    ensures atts != [] ==> atts == [pdfFiles[idx]]
  {
    if idx < |pdfFiles| && pdfFiles[idx] in existing then [pdfFiles[idx]] else []
  }

  /** `EmailSender`: the settings it copied from the configuration when built. */
  class EmailSender {
    const enabled: bool
    const settings: Config.Settings

    constructor (enabled: bool, settings: Config.Settings)
      ensures this.enabled == enabled && this.settings == settings
    {
      this.enabled := enabled;
      this.settings := settings;
    }

    /**
      `_send_single_email`: the call it makes, which forwards the settings
      unchanged and attaches the PDF only when it exists, and how that call ends.
     */
    method SendSingleEmail(row: Record, pdf: Option<Path>, env: OutlookBatchEnv, idx: nat)
      returns (req: OutlookRequest, d: Delivery, mail: Option<MailItem>)
      ensures req.to == Strip(row.email) && req.subject == settings.subjectTemplate && req.htmlBody == settings.fallbackBody
      ensures |req.attachments| <= 1
      ensures req.attachments != [] <==> pdf.Some? && pdf.value in env.existing
      ensures req.attachments != [] ==> req.attachments == [pdf.value]
      ensures req.fromAccount == settings.fromAccount && req.cc == settings.cc && req.bcc == settings.bcc
      ensures req.useSignature == settings.useSystemSignature && req.signatureName == settings.signatureName
      ensures req.useEmailTemplate == settings.useEmailTemplate && req.strictEmbedImages == settings.strictEmbedImages
      ensures req.maxRetries == settings.maxRetries
      ensures d == Dispatch(env.outlook(idx).mapiError, env.outlook(idx).create, env.outlook(idx).send, req.maxRetries, SendExhausted(req.to, req.maxRetries))
      ensures mail.Some? ==> Composed(mail.value, OutlookDraft(req, env.files), env.outlook(idx).session)
    {
      var attachments: seq<Path> := [];
      if pdf.Some? && pdf.value in env.existing {
        attachments := [pdf.value];
      }
      req := OutlookRequest(Strip(row.email), settings.subjectTemplate, settings.fallbackBody, attachments,
        settings.fromAccount, settings.cc, settings.bcc, settings.useSystemSignature, settings.signatureName,
        settings.useEmailTemplate, settings.strictEmbedImages, settings.maxRetries);
      d, mail := SendEmailViaOutlook(req, env.outlook(idx), env.files);
    }

    /**
      One pass of the batch loop: a row with an address is sent, with the
      attachments its position gives it, and counts when the send returned.
     */
    method SendRow(row: Record, idx: nat, pdfFiles: seq<Path>, env: OutlookBatchEnv)
      returns (counted: bool, call: Option<OutlookRequest>)
      ensures counted == (HasEmail(row) && OutlookReturns(env, settings.maxRetries)(idx))
      ensures call.Some? <==> HasEmail(row)
      ensures call.Some? ==> call.value.to == Strip(row.email)
      ensures call.Some? ==> call.value.attachments == BatchAttachments(pdfFiles, idx, env.existing)
    {
      counted := false;
      call := None;
      StripNonEmptyIff(row.email);
      if Strip(row.email) != "" {
        var pdf := if idx < |pdfFiles| then Some(pdfFiles[idx]) else None;
        var req, d, mail := SendSingleEmail(row, pdf, env, idx);
        DispatchSentIff(env.outlook(idx).mapiError, env.outlook(idx).create, env.outlook(idx).send, req.maxRetries, SendExhausted(req.to, req.maxRetries));
        counted := d.Sent?;
        call := Some(req);
      }
    }

    /**
      `send_emails_batch`: nothing is sent when the sender is disabled;
      otherwise every row with an address is sent and the sends that
      returned are counted.
     */
    method SendEmailsBatch(rows: seq<Record>, pdfFiles: seq<Path>, env: OutlookBatchEnv) returns (sent: nat)
      ensures !enabled ==> sent == 0
      ensures enabled ==> sent == SentCount(rows, OutlookReturns(env, settings.maxRetries), |rows|)
    {
      if !enabled {
        return 0;
      }
      var returned := OutlookReturns(env, settings.maxRetries);
      sent := 0;
      var idx := 0;
      while idx < |rows|
        invariant 0 <= idx <= |rows|
        invariant sent == SentCount(rows, returned, idx)
      {
        var counted, _ := SendRow(rows[idx], idx, pdfFiles, env);
        SentCountStep(rows, returned, idx, counted);
        if counted {
          sent := sent + 1;
        }
        idx := idx + 1;
      }
    }
  }
}
