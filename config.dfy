/** The constants of `config.py` that the modelled rules read, and the settings record the senders take. */
module Config {
  import opened Wrappers

  /** The marker in the Word template that receives each name. */
  const Placeholder: string := "{{VENDEUR}}"

  /** The marker in the e-mail template that receives the date. */
  const DateMarker: string := "{{DATE_SOUMISSION}}"

  /** The default number of send attempts. */
  const MaxRetries: nat := 5

  /** The two message fragments by which an Outlook failure counts as transient. */
  const RejectedByCallee: string := "Call was rejected by callee"
  const RejectedCode: string := "-2147418111"

  /**
    The settings a sender copies from `config.py` when it is built. Those
    read from the environment (`FROM_ACCOUNT`, `CC`, `BCC`, the SMTP
    password) are whatever the environment held.
   */
  datatype Settings = Settings(
    fromAccount: Option<string>,
    cc: string,
    bcc: string,
    subjectTemplate: string,
    fallbackBody: string,
    useSystemSignature: bool,
    useProjectSignature: bool,
    useEmailTemplate: bool,
    signatureName: Option<string>,
    strictEmbedImages: bool,
    maxRetries: int,
    smtpPassword: string)
}
