# word-batch-generator, modelled in Dafny

word-batch-generator fills a Word template once per record of a CSV file. It replaces the
`{{VENDEUR}}` placeholder with the record's name and converts each document to PDF. It then
mails each PDF through Outlook or SMTP. It is used from the command line (`main.py`), from a
window (`gui_controller.py`), or through a stand-alone script (`generate_and_pdf.py`).

This project models the decision logic around the libraries. The libraries themselves are
python-docx, docx2pdf, Outlook COM and smtplib. The model covers:

- the two-tier placeholder replacement over a paragraph's runs, in body paragraphs and in table cells;
- the names of the output files;
- the filename sanitisers and the CSV row filter;
- the validators;
- the two retry policies;
- the batch send accounting of both senders;
- the body, signature and recipient selection;
- the orchestration of the three entry points.

The outside world is passed in as parameters:

- the filesystem is a set of paths that exist (`existing`);
- file contents are a `FileRead` value;
- each CreateItem or Send or SMTP attempt is an oracle `nat -> Attempt`;
- the failing step of each record is `fault: nat -> Option<Stage>`;
- the stop button is `requests: nat -> bool`.

Modules follow the source files:

| module | models |
|---|---|
| `Strings` | Python `str.replace`, `in`, `strip`, `split`/`join`, `lower` and decimal formatting |
| `Paths` | a path's stem and suffix |
| `StringOrder` | `sorted` on strings |
| `Retry` | the two retry loops |
| `FileUtils` | `file_utils.py` |
| `Validators` | `validators.py` |
| `DocumentGeneration` | `document_generator.py` and the replacement helpers of `generate_and_pdf.py` |
| `OutlookUtils` | `outlook_utils.py` |
| `SendAccounting` | the counting shared by both senders |
| `EmailSending` | `email_sender.py` |
| `SmtpEmail` | `smtp_email_sender.py` |
| `GenerateAndPdf` | the rest of `generate_and_pdf.py` |
| `GuiControl` | `gui_controller.py` |
| `MainCli` | `main.py` |
| `Config` | the constants of `config.py` |

A paragraph is a class whose `runs` field the replacement methods update in place, as python-docx does.

The fallback at document_generator.py:34-48 can leave a placeholder behind when the name
rebuilds one. The paragraph `{{{{VENDEUR}}}}` with the name `VENDEUR` becomes `{{VENDEUR}}`.
`TwoTierNoResidual` proves that no placeholder is left when the name holds no `{` and every `{`
of the paragraph opens a placeholder. Ordinary names and paragraphs meet both conditions.

## Model

| member | source | states |
|---|---|---|
| Strings.FindIsLeftmost | document_generator.py:28 | the occurrence `str.replace` rewrites first is the leftmost one |
| Strings.ReplaceAllAbsent | document_generator.py:25-28 | replacing a pattern that does not occur leaves the text unchanged |
| Strings.ReplaceAllRemoves | document_generator.py:34 | after replacing every occurrence with a text sharing no character with the pattern, no occurrence is left |
| Strings.ReplaceAllConcat | document_generator.py:28 | replacing in two pieces that no occurrence straddles equals replacing in their concatenation |
| Strings.StripNonEmptyIff | email_sender.py:45-46 | `s.strip()` is non-empty exactly when `s` holds a non-whitespace character |
| Strings.StripEmptyIffBlank | validators.py:24 | `strip` gives the empty string exactly when every character is whitespace |
| Strings.StripIdempotent | file_utils.py:48-49 | stripping twice is stripping once |
| Strings.StripTrimmed | file_utils.py:48-49 | the stripped text neither starts nor ends with whitespace and is a slice of the input |
| Strings.JoinSplit | smtp_email_sender.py:190 | joining the pieces of `split(',')` gives back the text |
| Strings.SplitJoin | smtp_email_sender.py:190 | splitting a comma-join of comma-free pieces gives back the pieces |
| Strings.ParseNatToString | document_generator.py:76 | a decimal numeral reads back as its number |
| Strings.ZeroPad2 | document_generator.py:76 | `f"{index:02d}"` has at least two digits and reads back as the index |
| Paths.StemSuffix | document_generator.py:83 | a name is its `stem` followed by its `suffix` |
| Paths.SplitsAtExtension | document_generator.py:83 | `stem` and `suffix` of `a.b` with no dot in `b` are `a` and `.b` |
| StringOrder.StrLeTotal | outlook_utils.py:116 | the string order `sorted` uses is total |
| StringOrder.StrLeAntisymmetric | outlook_utils.py:116 | two strings each below the other are equal |
| StringOrder.StrLeTransitive | outlook_utils.py:116 | the string order is transitive |
| StringOrder.SortStrings | outlook_utils.py:116 | `sorted` returns a permutation of its input |
| StringOrder.SortStringsSorted | outlook_utils.py:116 | `sorted` returns an ordered list |
| StringOrder.SortStringsStrict | outlook_utils.py:116 | sorting a list without duplicates keeps it without duplicates |
| Retry.RetryTransient | outlook_utils.py:219-235 | the CreateItem loop ends as the transient-retry function says, counting one sleep per rejection |
| Retry.RetryAny | smtp_email_sender.py:172-210 | the SMTP attempt loop ends as the retry-on-anything function says |
| Retry.TransientResultPolicy | outlook_utils.py:220-235 | at most `max_retries` attempts; success or a non-transient failure at attempt `k` after `k` rejections; otherwise give up after `max_retries` rejections and sleeps |
| Retry.AnyResultPolicy | smtp_email_sender.py:172-210 | at most `max_retries` attempts; no sleep after the last; the last failure is re-raised; giving up happens only when `max_retries < 1` |
| Retry.TransientThenSuccess | outlook_utils.py:220-224 | `n` rejections and then a success give the success after exactly `n` sleeps |
| Retry.PermanentFailureStops | outlook_utils.py:225-232 | a failure without a transient marker propagates at once, with no further sleep |
| Retry.AlwaysRejectedGivesUp | outlook_utils.py:234-235 | rejection on every attempt ends in giving up after `max_retries` sleeps |
| Retry.FailuresThenSuccess | smtp_email_sender.py:172-200 | `n` failures then a success give the success after `n` sleeps |
| Retry.AlwaysFailingReraisesLast | smtp_email_sender.py:202-208 | when every attempt fails, the last attempt's exception is raised after `max_retries - 1` sleeps |
| FileUtils.SafeFilename | file_utils.py:12-14 | the result is never longer than the name and holds only alphanumerics, `-` and `_` |
| FileUtils.SafeFilenameOfSafe | file_utils.py:12-14 | a name already made of safe characters is unchanged |
| FileUtils.SafeFilenameIdempotent | file_utils.py:12-14 | sanitising twice is sanitising once |
| FileUtils.SafeFilenameHasNoSpaceOrDot | file_utils.py:12-14 | the result never holds a space or a dot |
| FileUtils.SafeFilenameTwoWords | file_utils.py:12-14 | two safe words separated by a space become the words joined by `_`, as "Alice Dupont" becomes "Alice_Dupont" |
| FileUtils.SafeFilenameIgnoresPadding | file_utils.py:12-14 | a leading or trailing space does not change the result |
| FileUtils.SafeEmailText | file_utils.py:19-20 | the result holds only alphanumerics, `-`, `_` and `.` |
| FileUtils.SafeEmailForFilename | file_utils.py:17-20 | `None` gives the empty string, and no `@` survives |
| FileUtils.SafeEmailOfEmpty | file_utils.py:19 | the empty address gives the empty string |
| FileUtils.SafeEmailWithoutAt | file_utils.py:19-20 | without an `@` only the character filter applies |
| FileUtils.SafeEmailAtFirstAt | file_utils.py:19-20 | the first `@` becomes `_at_`, with the text before it filtered |
| FileUtils.SafeEmailPlainAddress | file_utils.py:19-20 | `local@domain` over safe characters becomes `local_at_domain` |
| FileUtils.CleanRows | file_utils.py:46-50 | the kept records are never more than the rows read |
| FileUtils.CleanRowsTrimmed | file_utils.py:48-50 | every kept record has a non-empty name, and both fields are stripped |
| FileUtils.CleanRowsAppend | file_utils.py:46-50 | the filter keeps order: filtering a concatenation concatenates the filtered parts |
| FileUtils.CleanRowsSingle | file_utils.py:48-50 | a single row is kept exactly when its stripped name is non-empty |
| FileUtils.BlankNamesDropped | file_utils.py:50 | rows whose names are all blank give no record |
| FileUtils.Delivered | file_utils.py:43-54 | the rows delivered before a read error are a prefix of the file |
| FileUtils.ReadCsvRows | file_utils.py:35-54 | a missing file gives `[]`; otherwise the filtered rows read before any error, which is swallowed |
| FileUtils.CollectRows | file_utils.py:46-50 | the reading loop collects the filtered rows delivered |
| Validators.MatchEmailIffPattern | validators.py:18-19 | the hand-written recogniser accepts exactly the strings of the regular expression |
| Validators.ValidateEmailIff | validators.py:14-19 | the address is accepted exactly when it matches the pattern, or matches it followed by one `\n` |
| Validators.PatternHasOneAt | validators.py:19 | a matching address holds exactly one `@` |
| Validators.ValidateEmailAccepts | validators.py:19 | `a@x.yy` over the allowed characters is accepted, and also with a trailing newline |
| Validators.ValidateEmailNeedsAt | validators.py:19 | an address without `@` is refused |
| Validators.ValidateEmailEmptyLocal | validators.py:19 | an empty local part is refused |
| Validators.ValidateEmailDotFirstHost | validators.py:19 | a domain whose only dot is its first character is refused |
| Validators.ValidateEmailEmptyHost | validators.py:19 | an empty domain is refused |
| Validators.ValidateNameIff | validators.py:22-24 | a name is valid exactly when it is present and not all whitespace |
| Validators.RowErrorsEmptyIff | validators.py:40-48 | a row raises no error exactly when its name is valid and its e-mail is empty or valid |
| Validators.CsvErrorsEmptyIff | validators.py:40-50 | the error list is empty exactly when every row is valid |
| Validators.CsvErrorsWellFormed | validators.py:40-48 | errors carry 1-based line numbers within the file, in row order, at most two per row; an empty e-mail is never an error |
| Validators.ValidateCsvData | validators.py:32-50 | no rows gives the single no-data error; otherwise one error per faulty field in order; the flag is true exactly when there is no error |
| Validators.CollectErrors | validators.py:40-48 | the checking loop collects the error list row by row |
| Validators.ValidateTemplateFile | validators.py:53-61 | a missing file is refused with its message, before the extension is looked at; acceptance carries the empty message |
| Validators.TemplateAcceptedIff | validators.py:53-61 | a template is accepted exactly when it exists and its suffix is `.docx` up to case |
| Validators.DocxSuffixIff | validators.py:58 | the lower-cased suffix is `.docx` exactly when the name ends in that extension after a non-empty stem |
| Validators.BareExtensionRefused | validators.py:58 | a file named just `.docx` has no suffix and is refused |
| DocumentGeneration.ReplacePlaceholderInParagraph | document_generator.py:23-28 | the runs become the targeted replacement of the old runs |
| DocumentGeneration.TargetedRunsShape | document_generator.py:25-28 | the run count is kept; a run without the placeholder is unchanged; when the paragraph holds it, every run has all its occurrences replaced, and otherwise nothing changes |
| DocumentGeneration.TargetedRunIsReplace | document_generator.py:27-28 | the per-run step is `str.replace`, which leaves a run without the placeholder unchanged |
| DocumentGeneration.TargetedRunsClearRuns | document_generator.py:25-28 | after the targeted pass no run holds the placeholder, for a name sharing no character with it |
| DocumentGeneration.ForceReplaceAcrossRuns | document_generator.py:30-49 | returns true exactly when the text holds the placeholder; then one run holds the whole text replaced; otherwise the runs are untouched |
| DocumentGeneration.RemoveRuns | document_generator.py:41-46 | the clearing step ends with no run left |
| DocumentGeneration.LegacyFallbackNeverEnds | document_generator.py:45-46 | emptying the last run's text never removes a run, so that loop never ends |
| DocumentGeneration.ReplaceInBodyParagraph | document_generator.py:66-70 | a body paragraph ends as the targeted pass, then the fallback only if the placeholder survived |
| DocumentGeneration.ReplaceInCellParagraph | document_generator.py:56-59 | a table paragraph gets the same two-tier result, since the targeted step returns `None` |
| Strings.ReplaceAllClearsCovered | document_generator.py:34 | replacing the placeholder by a name without `{`, in a text whose every `{` opens a placeholder, leaves no `{` at all |
| Strings.CoveredReplaceEach | document_generator.py:26-28 | replacing in each run by a name without `{` keeps every `{` of the paragraph at the opening of a placeholder |
| DocumentGeneration.TwoTierNoResidual | document_generator.py:66-70 | after the two tiers the paragraph text holds no placeholder, for a placeholder opened by a doubled `{` and holding no other (as `PlaceholderOpened` shows of `{{VENDEUR}}`), a name without `{`, and a paragraph whose every `{` opens a placeholder |
| DocumentGeneration.TwoTierStraddling | document_generator.py:30-48 | a placeholder split across runs leaves a single run holding the replaced text |
| DocumentGeneration.TwoTierAligned | document_generator.py:23-28 | when no occurrence straddles runs, under the conditions of `TwoTierNoResidual`, the targeted pass is the final result, it keeps the number of runs, and its text is the replaced text |
| DocumentGeneration.AlignedTargetedText | document_generator.py:25-28 | when no occurrence straddles runs, the run-wise replacement concatenates to the whole-text replacement |
| DocumentGeneration.TargetedSingleRun | tests/test_document_generator.py:35-45 | a single run `Hello {{VENDEUR}} world` becomes `Hello John Doe world` |
| DocumentGeneration.ForcedTwoRuns | tests/test_document_generator.py:47-64 | two runs straddling the placeholder give the text with it replaced once |
| DocumentGeneration.ReplaceAllOnce | document_generator.py:34 | a text holding the placeholder once is that text with the name in its place |
| DocumentGeneration.ReplaceInCell | document_generator.py:56-59 | every paragraph of a cell ends with the two-tier result |
| DocumentGeneration.ReplaceInRow | document_generator.py:55-59 | every paragraph of every cell of a row ends with the two-tier result |
| DocumentGeneration.ReplaceInTable | document_generator.py:54-59 | every paragraph of a table ends with the two-tier result |
| DocumentGeneration.ReplaceInTables | document_generator.py:51-59 | every table paragraph of the document ends with the two-tier result |
| DocumentGeneration.ReplaceInBody | document_generator.py:66-70 | every body paragraph ends with the two-tier result |
| DocumentGeneration.DocxNameSplits | document_generator.py:76 | the Word name's stem is `NN_name` and its suffix is `.docx` |
| DocumentGeneration.DocxNameIndex | document_generator.py:76 | the Word name starts with the padded index, followed by the first `_` |
| DocumentGeneration.DocxNamesDistinct | document_generator.py:76 | records at different positions get different Word names |
| DocumentGeneration.PdfNameSplits | document_generator.py:82-83 | the PDF name's stem is the Word stem plus the e-mail part, and its suffix is `.pdf` |
| DocumentGeneration.PdfNameOfDocx | document_generator.py:82-83 | the PDF name is the Word stem, then `_` and the sanitised e-mail only when the e-mail is non-empty, then `.pdf` |
| DocumentGeneration.WordPath | document_generator.py:76 | a Word file lies in its folder with stem `NN_name` and suffix `.docx` |
| DocumentGeneration.PdfFilePath | document_generator.py:82-83 | a PDF file's path is the converted name of its Word file's path |
| DocumentGeneration.AllPdfs | document_generator.py:92-100 | a complete batch yields one PDF per record, made from the Word file of the same 1-based position |
| DocumentGeneration.DocumentGenerator.Open | document_generator.py:18-21 | building a generator fails exactly when the template does not exist, with the message `Modèle introuvable: <path>` |
| DocumentGeneration.DocumentGenerator.GenerateDocument | document_generator.py:61-78 | every body and table paragraph gets the two-tier result; the output is `NN_name.docx` in the output folder |
| DocumentGeneration.DocumentGenerator.GenerateDocumentsBatch | document_generator.py:87-108 | completes exactly when no record fails, with two lists as long as the records and 1-based indices; otherwise the first failing record's exception ends the batch |
| OutlookUtils.ListSignatures | outlook_utils.py:103-116 | a missing folder gives `[]`; otherwise every `.htm` or `.html` stem, sorted, each once when the `.htm` stems are distinct |
| OutlookUtils.ProjectSignature | outlook_utils.py:119-129 | the file's text when it can be read, otherwise the empty string |
| OutlookUtils.LoadEmailTemplate | outlook_utils.py:132-144 | the template's text, or the fallback body when the file is missing or unreadable |
| OutlookUtils.SignatureSourceOf | outlook_utils.py:288-296 | the project signature, then the named one, then the system one when asked for, then none |
| OutlookUtils.WithSignature | outlook_utils.py:298-301 | the body is kept as a prefix; the result equals the body exactly when the signature is empty, and otherwise the signature follows it |
| OutlookUtils.DateFilled | outlook_utils.py:270 | filling in a `%d/%m/%Y` date removes every date marker |
| OutlookUtils.TemplateDateFilled | outlook_utils.py:262-272 | a body taken from the template keeps no date marker |
| OutlookUtils.MatchAccount | outlook_utils.py:237-251 | the sending account is the first whose SMTP address equals the requested one up to case; none when nothing matches or nothing was requested |
| OutlookUtils.FirstMatchUnique | outlook_utils.py:241-247 | the account search has one answer |
| OutlookUtils.Attached | outlook_utils.py:311-316 | the attachments kept are exactly the given ones that `Attachments.Add` accepts, in order |
| OutlookUtils.AttachFiles | outlook_utils.py:311-316 | the attachment loop keeps those attachments |
| OutlookUtils.DispatchSentIff | outlook_utils.py:211-340 | the call returns normally exactly when MAPI is ready and CreateItem and then Send each succeed within `max_retries` attempts |
| OutlookUtils.SentAfterRejections | outlook_utils.py:220-235 | a sent mail was created and sent after one sleep per rejection before each success |
| OutlookUtils.CreateRejectedThroughout | outlook_utils.py:234-235 | CreateItem rejected on every attempt raises the CreateItem error |
| OutlookUtils.SendRejectedThroughout | outlook_utils.py:326-340 | Send rejected on every attempt, once the item exists, raises the Send error |
| OutlookUtils.CreateFailurePropagates | outlook_utils.py:225-232 | a CreateItem failure without a transient marker propagates as it is |
| OutlookUtils.DeliverMail | outlook_utils.py:211-340 | the outcome follows both retry loops; the mail item exists exactly when CreateItem succeeded, with the matched account, the given fields and the accepted attachments |
| OutlookUtils.SignatureText | outlook_utils.py:284-300 | no signature text gives none; without strict embedding the loaded text is kept; the system signature is never rewritten; with strict embedding a non-empty project signature is rewritten under the name `project_signature` and a named one under its own name |
| OutlookUtils.SendEmailViaOutlook | outlook_utils.py:191-340 | the delivery of the draft built from the arguments, with the template, signature precedence (image rewrite by `SignatureText`) and Send error message |
| SendAccounting.SentWithinAddressed | email_sender.py:44-57 | the count is at most the number of rows with an address, which is at most the number of rows |
| SendAccounting.AllReturnAllCounted | email_sender.py:50-52 | when every send returns, every row with an address is counted |
| SendAccounting.NoneReturnNoneCounted | email_sender.py:50-54 | when no send returns, the count is 0 |
| SendAccounting.OneFailureOneLess | email_sender.py:53-54 | one send that raises costs only its own row |
| EmailSending.EmailSender.SendSingleEmail | email_sender.py:59-83 | the PDF is attached only when it exists; the settings are forwarded unchanged; the outcome is that of the Outlook call |
| EmailSending.BatchAttachments | email_sender.py:51-67 | a row's mail carries the PDF at its own position of the list handed to the batch, exactly when the list reaches that far and the file exists |
| EmailSending.EmailSender.SendRow | email_sender.py:45-54 | a row is sent exactly when it has an address, to that address and with the attachments of its position; it counts exactly when its send also returned |
| EmailSending.EmailSender.SendEmailsBatch | email_sender.py:35-57 | a disabled sender gives 0; otherwise the count of rows with an address whose send returned, the loop going on past failures |
| SmtpEmail.CleanList | smtp_email_sender.py:190-192 | the CC and BCC entries are stripped, non-empty and comma-free |
| SmtpEmail.CleanListEmpty | smtp_email_sender.py:189-192 | an empty list names nobody |
| SmtpEmail.CleanListOfJoin | smtp_email_sender.py:190 | addresses joined by commas read back as those addresses |
| SmtpEmail.SmtpFailure | smtp_email_sender.py:172-210 | the `RuntimeError` is raised only when `max_retries < 1` |
| SmtpEmail.SmtpFailsAfterEveryAttempt | smtp_email_sender.py:202-208 | a failing send failed on every attempt and raises the last attempt's exception |
| SmtpEmail.PdfFor | smtp_email_sender.py:70 | row `idx` gets `pdf_files[idx]` exactly when the list reaches that far |
| SmtpEmail.SmtpEmailSender.LoadSignature | smtp_email_sender.py:139-151 | the project signature only when enabled and readable, otherwise the empty string |
| SmtpEmail.SmtpEmailSender.MainBody | smtp_email_sender.py:112-129 | the template with its date filled in when enabled and readable, otherwise the fallback body |
| SmtpEmail.SmtpEmailSender.PrepareEmailBody | smtp_email_sender.py:109-137 | the body is kept as a prefix, and the signature follows it exactly when it is non-empty |
| SmtpEmail.SmtpEmailSender.TemplateDateFilled | smtp_email_sender.py:120 | a body taken from the template keeps no date marker |
| SmtpEmail.SmtpEmailSender.Recipients | smtp_email_sender.py:188-192 | the addressee, then the CC entries, then the BCC entries |
| SmtpEmail.SmtpEmailSender.SendViaSmtp | smtp_email_sender.py:170-210 | the recipients of each attempt and the outcome of the retry-on-anything loop |
| SmtpEmail.SmtpEmailSender.SendSingleEmail | smtp_email_sender.py:79-107 | the headers come from the settings and the stripped address; the PDF is attached only when it exists and can be read; the outcome is the send's |
| SmtpEmail.SmtpEmailSender.SendRow | smtp_email_sender.py:64-73 | a row counts exactly when it has an address and its send returned |
| SmtpEmail.SmtpEmailSender.SendEmailsBatch | smtp_email_sender.py:50-77 | 0 when disabled or without an SMTP password; otherwise the count of rows with an address whose send returned |
| GenerateAndPdf.ReadRows | generate_and_pdf.py:153-162 | the kept records of the whole file in order; a reading error propagates |
| GenerateAndPdf.ScriptSignatureSource | generate_and_pdf.py:384-390 | the global signature name first, then the system signature when asked for; never the project signature |
| GenerateAndPdf.ScriptDraft | generate_and_pdf.py:384-402 | the draft keeps the arguments, with the body as a prefix of its HTML |
| GenerateAndPdf.ScriptSendEmailViaOutlook | generate_and_pdf.py:311-439 | the same MAPI, CreateItem and Send retries, with the script's draft (its signature through `SignatureText`, so the system signature is not rewritten) and its own error message |
| GenerateAndPdf.FirstFault | generate_and_pdf.py:461-472 | the first record whose step raises, when there is one |
| GenerateAndPdf.ScriptGenerate | generate_and_pdf.py:460-472 | one Word and one PDF file per record, numbered from 1, up to the first record whose step raises; a Word file is kept when only its conversion fails |
| GenerateAndPdf.ScriptSendRow | generate_and_pdf.py:483-505 | a row counts exactly when it has an address, its PDF exists and its send returned |
| GenerateAndPdf.ScriptSendAll | generate_and_pdf.py:478-506 | the number of rows whose send returned |
| GenerateAndPdf.RunScript | generate_and_pdf.py:444-508 | exit code 1 for a missing template, then a missing CSV file, then no records; a Word error escapes; a failed conversion gives 2; otherwise 0, with the mails sent when enabled |
| GuiControl.ValidateInputs | gui_controller.py:43-69 | checks the template, the CSV file, the placeholder, then the subject when mailing, and reports the first failure's message |
| GuiControl.KeptDocx | gui_controller.py:162-165 | at most one Word file per record |
| GuiControl.KeptPdfs | gui_controller.py:162-169 | no more PDF files than Word files |
| GuiControl.KeptDocxNumbered | gui_controller.py:164 | each kept Word file carries the 1-based position and name of its record, in increasing order |
| GuiControl.PdfsMatchConverted | gui_controller.py:162-169 | the kept PDF files line up with the records that were converted |
| GuiControl.MisattachedPdf | gui_controller.py:162-175 | with one failed conversion, the first record is paired with the second record's PDF |
| GuiControl.MisattachedMail | gui_controller.py:94 | the sender, handed all records and that list, attaches B's PDF to A's mail and nothing to B's |
| GuiControl.StoppedRowsMailedBare | gui_controller.py:94 | after a stop at record `stop`, every later record gets no attachment from the list handed to the sender |
| GuiControl.FirstRequest | gui_controller.py:153-155 | the first check at which the stop flag is set |
| GuiControl.GuiController.RequestStop | gui_controller.py:220-222 | the stop flag is set |
| GuiControl.GuiController.GenerateDocuments | gui_controller.py:142-185 | no template gives nothing; otherwise the files kept up to the first stop request, skipping records whose step raised |
| GuiControl.GuiController.SendEmails | gui_controller.py:187-200 | the batch count, or 0 when the sender raises |
| GuiControl.GuiController.RunGeneration | gui_controller.py:71-105 | a folder error is fatal; no records or no Word file end the run; otherwise the summary of the counts, with the mails sent only when enabled |
| GuiControl.GuiController.StartGeneration | gui_controller.py:25-41 | refused while a run is active; otherwise the flag is cleared, the first failing input check is reported, and with valid inputs the run ends as a run started with a cleared flag |
| MainCli.CliExitCode | main.py:100-127 | the exit code is 0 or 1 |
| MainCli.CliSucceedsIff | main.py:100-127 | the run succeeds exactly when the template exists with a `.docx` name, the CSV file exists, the folders can be made, a record is kept and no record's step raises |
| MainCli.WordBatchGenerator.constructor | main.py:21-24 | the sender is built from the configuration and there is no generator yet |
| MainCli.WordBatchGenerator.ValidateEnvironment | main.py:26-49 | true exactly when the template, the CSV file and the folders all pass, checked in that order |
| MainCli.WordBatchGenerator.LoadData | main.py:51-67 | the rows read, whatever the validation reports |
| MainCli.WordBatchGenerator.GenerateDocuments | main.py:69-87 | the batch's files exactly when the generator is built and no record fails |
| MainCli.WordBatchGenerator.SendEmails | main.py:89-98 | the configured sender's batch count |
| MainCli.WordBatchGenerator.Run | main.py:100-127 | returns the exit code of the whole pipeline |
| MainCli.MainDispatch | main.py:130-146 | `--gui` opens the window, or gives 1 without the toolkit; anything else runs the command line |

## Left out

- Document I/O is left out. python-docx load and save, docx2pdf conversion, and Outlook COM calls are outside the model. So are MAPI logon, the registry lookup of the default signature, and SMTP connections, MIME encoding and `sendmail`. They appear only as oracles and as the sets of paths that exist.
- `gui.py`, `logger_config.py`, `debug_env.py` and the manual scripts `test_smtp.py`, `test_attachment.py` and `test_outlook.py` are not part of this model. They are window code, logging, and scripts that need a live server.
- Threading is left out. `start_generation`'s worker thread is the parameter `workerAlive`. The other thread's stop requests are the oracle `requests`, read once before each record.
- Logging, progress updates and the GUI's message boxes are left out. They do not affect the results.
- `str.format(nom=...)` on the subject and body templates is treated as identity in the package, because the shipped templates hold no fields. In the script it is a function of the name (`ScriptSettings.subject`/`body`).
- `read_text_smart` is left out. Its encoding fallbacks are replaced by the `FileRead` value a file yields.
- The `re.sub` rewrite of signature image sources is the parameter `embed`, a function of the signature's name and text. It rests on filesystem lookups under `<name>_files` and COM attachments. The name of a signature found by name is its file's stem, taken to be the name itself.
- `str.isalnum` is exact for ASCII and Latin-1 only. `str.isspace` and `str.lower` are modelled on ASCII only.
- `datetime.now()` is the parameter `date`. `time.sleep` is a count of sleeps.
- `ValidateInputs` checks the window's placeholder and output folders, but the generator always uses the configured placeholder `{{VENDEUR}}` and folders, as the source does.
- `GuiControl.GuiController.SendEmails`: the sender raising is the parameter `senderRaises`. The model does not say which of its calls raised.
- `DocumentGeneration.ReplaceInRow`, `ReplaceInTable`, `ReplaceInTables` and `DocumentGenerator.GenerateDocument` require every paragraph to appear once. python-docx repeats a merged cell in `row.cells`, which would make a paragraph be replaced twice. That aliasing is not modelled.
- TwoTierNoResidual: proved for a name without `{` and a paragraph whose every `{` opens a placeholder. Without either condition a name can rebuild the placeholder, as in `{{{{VENDEUR}}}}` with `VENDEUR`.
- TwoTierAligned: proved under the same two conditions as `TwoTierNoResidual`.
- TargetedRunsClearRuns: proved only for a name that shares no character with the placeholder. For ordinary names the end result of both tiers is `TwoTierNoResidual`.
- `DocumentGeneration.ForceReplaceAcrossRuns` models the corrected clearing step `RemoveRuns` when `clear()` is missing (see Findings).
- `GuiControl.GuiController.RunGeneration` hands the sender the converted records with their PDFs. The source pairs all records with the PDF list instead (see Findings).
- `test_connection` of the SMTP sender is left out. It only opens and closes a connection.
- `SmtpEmail.SmtpEmailSender.SendSingleEmail` states the recipients and outcome of `sendmail` but not the MIME layout of the message.
- `EmailSending.EmailSender.SendSingleEmail` treats `delay_seconds` as forwarded without modelling its value, since sleeps are only counted.

## Findings

| source | as written | input that shows it | evidently intended | confidence | as-written member | corrected member |
|---|---|---|---|---|---|---|
| document_generator.py:45-46 | the fallback for a python-docx without `clear()` is `while paragraph.runs: paragraph.runs[-1].text = ""`, which empties a run's text without removing the run (the same loop is at generate_and_pdf.py:97-98) | a paragraph with at least one run, on a library without `clear()` | remove the runs, so that only the new run remains | not executed | DocumentGeneration.LegacyFallbackNeverEnds | DocumentGeneration.RemoveRuns |
| gui_controller.py:162-175 | `_generate_documents` skips the PDF of a record whose conversion failed, and `_run_generation` (gui_controller.py:94) hands all records with that shorter list to `send_emails_batch`, which pairs them by position (email_sender.py:51) | records A and B where A's conversion fails: the PDF list is B's alone, so A is sent B's PDF and B none; after a stop, the records never processed are mailed without attachment (email_sender.py:51,67) | each PDF goes to the record it was made for | not executed | GuiControl.MisattachedMail | GuiControl.PdfsMatchConverted |
