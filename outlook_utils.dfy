/**
  `outlook_utils.py`: the Outlook signature folder, the project's e-mail
  template and signature, and what `send_email_via_outlook` decides around
  the COM calls: which account sends, which body and signature the mail
  carries, which attachments it holds, and how CreateItem and Send are retried.
 */
module OutlookUtils {
  import opened Wrappers
  import opened Strings
  import opened Paths
  import opened Retry
  import opened StringOrder
  import Config

  // ---------------------------------------------------------------------
  // The signature folder

  /**
    The folder `%APPDATA%\Microsoft\Signatures` as the program sees it:
    whether it exists, the stems of its `.htm` and of its `.html` files in
    the order `glob` lists them, and the text `read_text_smart` gives for a
    file name of the folder.
   */
  datatype SignatureFolder = SignatureFolder(present: bool, htm: seq<string>, html: seq<string>, read: string -> string)

  /**
    `list_signatures`: nothing when the folder is missing, otherwise every
    stem of a `.htm` or `.html` file once, sorted.
   */
  method ListSignatures(folder: SignatureFolder) returns (names: seq<string>)
    ensures !folder.present ==> names == []
    ensures folder.present ==> forall s :: s in names <==> s in folder.htm || s in folder.html
    ensures Sorted(names)
    ensures NoDuplicates(folder.htm) ==> NoDuplicates(names)
  {
    if !folder.present {
      return [];
    }
    var found: seq<string> := [];
    var i := 0;
    while i < |folder.htm|
      invariant 0 <= i <= |folder.htm|
      invariant found == folder.htm[..i]
    {
      found := found + [folder.htm[i]];
      i := i + 1;
    }
    assert found == folder.htm;
    var j := 0;
    while j < |folder.html|
      invariant 0 <= j <= |folder.html|
      invariant NoDuplicates(folder.htm) ==> NoDuplicates(found)
      invariant forall s :: s in found <==> s in folder.htm || s in folder.html[..j]
    {
      var stem := folder.html[j];
      assert folder.html[..j + 1] == folder.html[..j] + [stem];
      if stem !in found {
        found := found + [stem];
      }
      j := j + 1;
    }
    assert folder.html[..j] == folder.html;
    SortStringsSorted(found);
    if NoDuplicates(folder.htm) {
      SortStringsStrict(found);
    }
    names := SortStrings(found);
    assert forall s :: s in names <==> s in multiset(found);
  }

  /**
    `load_signature_html_by_name(name)[0]`: the `.htm` file of that name,
    else its `.html` file, else nothing; the empty name loads nothing.
   */
  function SignatureByName(name: string, folder: SignatureFolder): string {
    if name == "" then ""
    else if folder.present && name in folder.htm then folder.read(name + ".htm")
    else if folder.present && name in folder.html then folder.read(name + ".html")
    else ""
  }

  /**
    `load_system_signature_html`, given the name Outlook's registry holds
    for new messages: that signature when its file exists, else the first
    `.htm` file listed, else the first `.html` file listed, else nothing.
   */
  function SystemSignature(folder: SignatureFolder, defaultName: string): string {
    if !folder.present then ""
    else if defaultName != "" && defaultName in folder.htm then folder.read(defaultName + ".htm")
    else if defaultName != "" && defaultName in folder.html then folder.read(defaultName + ".html")
    else if |folder.htm| > 0 then folder.read(folder.htm[0] + ".htm")
    else if |folder.html| > 0 then folder.read(folder.html[0] + ".html")
    else ""
  }

  /** `load_project_signature`: the file's text when it can be read, otherwise nothing. */
  function ProjectSignature(f: FileRead): (sig: string)
    ensures f.Contents? ==> sig == f.text
    ensures !f.Contents? ==> sig == ""
  {
    if f.Contents? then f.text else ""
  }

  /** `load_email_template`: the template file's text, or the fallback body when it is missing or unreadable. */
  function LoadEmailTemplate(f: FileRead, fallback: string): (t: string)
    ensures f.Contents? ==> t == f.text
    ensures !f.Contents? ==> t == fallback
  {
    if f.Contents? then f.text else fallback
  }

  // ---------------------------------------------------------------------
  // Signature precedence and the body

  /** Where the signature of an Outlook mail comes from. */
  datatype SignatureSource = FromProject | ByName(name: string) | FromSystem | NoSignature

  /**
    The precedence of `send_email_via_outlook`: the project signature when
    the configuration enables it, else the named Outlook signature, else the
    system one when `use_signature` is set, else none.
   */
  function SignatureSourceOf(useProjectSignature: bool, signatureName: Option<string>, useSignature: bool): (src: SignatureSource)
    ensures src == FromProject <==> useProjectSignature
    ensures src.ByName? <==> !useProjectSignature && signatureName.Some? && signatureName.value != ""
    ensures src.ByName? ==> src.name == signatureName.value
    ensures src == FromSystem <==> !useProjectSignature && (signatureName.None? || signatureName.value == "") && useSignature
    ensures src == NoSignature <==> !useProjectSignature && (signatureName.None? || signatureName.value == "") && !useSignature
  {
    if useProjectSignature then FromProject
    else if signatureName.Some? && signatureName.value != "" then ByName(signatureName.value)
    else if useSignature then FromSystem
    else NoSignature
  }

  /** `final_html += sig_html` when the signature is non-empty. */
  function WithSignature(body: string, sig: string): (html: string)
    ensures |html| >= |body| && html[..|body|] == body
    ensures html == body <==> sig == ""
    ensures sig != "" ==> html[|body|..] == sig
  {
    if sig != "" then body + sig else body
  }

  /**
    What the program reads besides the call's arguments: the two switches
    of `config.py`, the template and project-signature files and the
    fallback body, the signature folder and its default name, the image
    rewrite `attach_and_inline_signature_images`, which depends on the
    signature's name (through the folder `<name>_files`) and its text, and
    today's date as `%d/%m/%Y`.
   */
  datatype OutlookFiles = OutlookFiles(
    useEmailTemplate: bool,
    useProjectSignature: bool,
    template: FileRead,
    fallbackBody: string,
    projectSignature: FileRead,
    folder: SignatureFolder,
    defaultSignature: string,
    embed: (string, string) -> string,
    date: string)

  /**
    The body before the signature: the loaded template with its date filled
    in, when the call and the configuration both ask for it and it is
    non-empty; otherwise the body passed in.
   */
  function TemplateBody(useEmailTemplate: bool, files: OutlookFiles, htmlBody: string): string {
    var t := LoadEmailTemplate(files.template, files.fallbackBody);
    if useEmailTemplate && files.useEmailTemplate && t != "" then ReplaceAll(t, Config.DateMarker, files.date)
    else htmlBody
  }

  /** Characters of a date written as `%d/%m/%Y`. */
  predicate DateChar(c: char) { IsDigit(c) || c == '/' }

  /** A non-empty text made of date characters, which is what `strftime("%d/%m/%Y")` gives. */
  predicate IsDateText(date: string) {
    date != [] && forall k :: 0 <= k < |date| ==> DateChar(date[k])
  }

  /** Filling in a date removes every date marker: a date shares no character with the marker. */
  lemma {:induction false} DateFilled(t: string, date: string)
    requires IsDateText(date)
    ensures !Contains(ReplaceAll(t, Config.DateMarker, date), Config.DateMarker)
  {
    assert forall k :: 0 <= k < |Config.DateMarker| ==> !DateChar(Config.DateMarker[k]);
    ReplaceAllRemoves(t, Config.DateMarker, date);
  }

  /** A filled template never keeps a date marker. */
  lemma {:induction false} TemplateDateFilled(useEmailTemplate: bool, files: OutlookFiles, htmlBody: string)
    requires useEmailTemplate && files.useEmailTemplate
    requires LoadEmailTemplate(files.template, files.fallbackBody) != ""
    requires IsDateText(files.date)
    ensures !Contains(TemplateBody(useEmailTemplate, files, htmlBody), Config.DateMarker)
  {
    DateFilled(LoadEmailTemplate(files.template, files.fallbackBody), files.date);
  }

  // ---------------------------------------------------------------------
  // The mail item

  /** The arguments of `send_email_via_outlook`. */
  datatype OutlookRequest = OutlookRequest(
    to: string,
    subject: string,
    htmlBody: string,
    attachments: seq<Path>,
    fromAccount: Option<string>,
    cc: string,
    bcc: string,
    useSignature: bool,
    signatureName: Option<string>,
    useEmailTemplate: bool,
    strictEmbedImages: bool,
    maxRetries: int)

  /** The signature text a source gives, before any image rewrite. */
  function LoadedSignature(src: SignatureSource, files: OutlookFiles): string {
    match src
    case FromProject => ProjectSignature(files.projectSignature)
    case ByName(name) => SignatureByName(name, files.folder)
    case FromSystem => SystemSignature(files.folder, files.defaultSignature)
    case NoSignature => ""
  }

  /**
    The name the image rewrite is given, `effective_name or signature_name`:
    `project_signature` for the project's signature, the stem of the file
    found for a named one (the name itself), and none for the system one.
   */
  function EmbedName(src: SignatureSource): string {
    match src
    case FromProject => "project_signature"
    case ByName(name) => name
    case _ => ""
  }

  /**
    The signature text a source gives, after the image rewrite when
    `strictEmbed` is set, the text is non-empty and there is a name to find
    the images by; the rewrite returns a nameless signature unchanged.
   */
  function SignatureText(src: SignatureSource, files: OutlookFiles, strictEmbed: bool): (sig: string)
    ensures LoadedSignature(src, files) == "" ==> sig == ""
    ensures !strictEmbed ==> sig == LoadedSignature(src, files)
    ensures src.FromSystem? ==> sig == SystemSignature(files.folder, files.defaultSignature)
    ensures strictEmbed && LoadedSignature(src, files) != "" && src.FromProject? ==>
      sig == files.embed("project_signature", LoadedSignature(src, files))
    ensures strictEmbed && LoadedSignature(src, files) != "" && src.ByName? ==>
      sig == files.embed(src.name, LoadedSignature(src, files))
  {
    var raw := LoadedSignature(src, files);
    var name := EmbedName(src);
    if raw != "" && strictEmbed && name != "" then files.embed(name, raw) else raw
  }

  /** The `HTMLBody` the mail is given: the body, then the signature chosen by precedence. */
  function OutlookHtml(req: OutlookRequest, files: OutlookFiles): string {
    var src := SignatureSourceOf(files.useProjectSignature, req.signatureName, req.useSignature);
    WithSignature(TemplateBody(req.useEmailTemplate, files, req.htmlBody), SignatureText(src, files, req.strictEmbedImages))
  }

  /** What the caller wants sent: sender account, recipients, subject, final HTML body and attachment paths. */
  datatype Draft = Draft(fromAccount: Option<string>, to: string, cc: string, bcc: string, subject: string, html: string, attachments: seq<Path>)

  /** The draft `send_email_via_outlook` builds from its arguments. */
  function OutlookDraft(req: OutlookRequest, files: OutlookFiles): Draft {
    Draft(req.fromAccount, req.to, req.cc, req.bcc, req.subject, OutlookHtml(req, files), req.attachments)
  }

  /** The Outlook session: its accounts' SMTP addresses, and which paths `Attachments.Add` accepts. */
  datatype Session = Session(accounts: seq<string>, attachable: Path -> bool)

  /** The fields a created mail item receives; `account` indexes the session's accounts. */
  datatype MailItem = MailItem(account: Option<nat>, to: string, cc: string, bcc: string, subject: string, htmlBody: string, attachments: seq<Path>)

  /** An account is the one asked for when its SMTP address is set and equal to it up to case. */
  predicate AccountMatches(smtp: string, fromAccount: string) {
    smtp != "" && Lower(smtp) == Lower(fromAccount)
  }

  /** `m` is the first account matching `fromAccount`, or none when none does or none was asked for. */
  predicate FirstMatch(accounts: seq<string>, fromAccount: Option<string>, m: Option<nat>) {
    match m
    case Some(i) =>
      fromAccount.Some? && i < |accounts| && AccountMatches(accounts[i], fromAccount.value)
      && forall j :: 0 <= j < i ==> !AccountMatches(accounts[j], fromAccount.value)
    case None =>
      fromAccount.None? || forall j :: 0 <= j < |accounts| ==> !AccountMatches(accounts[j], fromAccount.value)
  }

  /** At most one answer fits the account search. */
  lemma {:induction false} FirstMatchUnique(accounts: seq<string>, fromAccount: Option<string>, m1: Option<nat>, m2: Option<nat>)
    requires FirstMatch(accounts, fromAccount, m1) && FirstMatch(accounts, fromAccount, m2)
    ensures m1 == m2
  {
    if m1.Some? && m2.Some? {
      assert !(m1.value < m2.value) && !(m2.value < m1.value);
    }
  }

  /** The account search of `send_email_via_outlook`, which stops at the first match. */
  method MatchAccount(accounts: seq<string>, fromAccount: Option<string>) returns (matched: Option<nat>)
    ensures FirstMatch(accounts, fromAccount, matched)
  {
    matched := None;
    if fromAccount.Some? && fromAccount.value != "" {
      var i := 0;
      while i < |accounts|
        invariant 0 <= i <= |accounts|
        invariant forall j :: 0 <= j < i ==> !AccountMatches(accounts[j], fromAccount.value)
      {
        if AccountMatches(accounts[i], fromAccount.value) {
          matched := Some(i);
          break;
        }
        i := i + 1;
      }
    }
  }

  /** The attachments `Attachments.Add` accepts, in the given order; a refused one is skipped. */
  function Attached(paths: seq<Path>, attachable: Path -> bool): (kept: seq<Path>)
    ensures |kept| <= |paths|
    ensures forall p :: p in kept <==> p in paths && attachable(p)
    decreases |paths|
  {
    if paths == [] then []
    else
      var last := paths[|paths| - 1];
      assert paths == paths[..|paths| - 1] + [last];
      Attached(paths[..|paths| - 1], attachable) + (if attachable(last) then [last] else [])
  }

  /** The attachment loop of `send_email_via_outlook`. */
  method AttachFiles(paths: seq<Path>, attachable: Path -> bool) returns (added: seq<Path>)
    ensures added == Attached(paths, attachable)
  {
    added := [];
    var i := 0;
    while i < |paths|
      invariant 0 <= i <= |paths|
      invariant added == Attached(paths[..i], attachable)
    {
      assert paths[..i + 1][..i] == paths[..i];
      if attachable(paths[i]) {
        added := added + [paths[i]];
      }
      i := i + 1;
    }
    assert paths[..i] == paths;
  }

  // ---------------------------------------------------------------------
  // CreateItem and Send

  /** What a call that Outlook never stops rejecting ends with. */
  const CreateExhausted: string := "Outlook indisponible: CreateItem a échoué après retries."

  /** The error raised when every Send attempt was rejected. */
  function SendExhausted(to: string, maxRetries: int): string {
    "[MAIL] Échec envoi à " + to + " après " + IntToString(maxRetries) + " tentatives."
  }

  /** How a dispatch ends: sent, with the sleeps of each retry loop, or the message of the exception it raised. */
  datatype Delivery = Sent(createSleeps: nat, sendSleeps: nat) | Failed(message: string)

  /**
    The outcome of a dispatch whose MAPI logon raised `mapiError` (or
    nothing), whose `k`-th CreateItem and Send attempts end as `create(k)`
    and `send(k)`, and which raises `sendExhausted` when every Send is rejected.
   */
  function Dispatch(mapiError: Option<string>, create: nat -> Attempt, send: nat -> Attempt, maxRetries: int, sendExhausted: string): Delivery {
    if mapiError.Some? then Failed(mapiError.value)
    else
      var (created, createSleeps) := TransientResult(create, maxRetries);
      match created
      case Raised(m, _) => Failed(m)
      case GaveUp => Failed(CreateExhausted)
      case Succeeded(_) =>
        var (sent, sendSleeps) := TransientResult(send, maxRetries);
        match sent
        case Raised(m, _) => Failed(m)
        case GaveUp => Failed(sendExhausted)
        case Succeeded(_) => Sent(createSleeps, sendSleeps)
  }

  /** MAPI was ready, and CreateItem and then Send each succeeded within `maxRetries` attempts. */
  predicate Delivers(mapiError: Option<string>, create: nat -> Attempt, send: nat -> Attempt, maxRetries: int) {
    mapiError.None? && TransientResult(create, maxRetries).0.Succeeded? && TransientResult(send, maxRetries).0.Succeeded?
  }

  /** A dispatch returns normally exactly when both retry loops succeed, whatever its exhaustion message. */
  lemma {:induction false} DispatchSentIff(mapiError: Option<string>, create: nat -> Attempt, send: nat -> Attempt, maxRetries: int, sendExhausted: string)
    ensures Dispatch(mapiError, create, send, maxRetries, sendExhausted).Sent? <==> Delivers(mapiError, create, send, maxRetries)
  {
    if mapiError.None? {
      var (created, createSleeps) := TransientResult(create, maxRetries);
      var (sent, sendSleeps) := TransientResult(send, maxRetries);
      assert created.Succeeded? && sent.Succeeded? ==> Dispatch(mapiError, create, send, maxRetries, sendExhausted) == Sent(createSleeps, sendSleeps);
    }
  }

  /**
    A sent mail was created and sent within `maxRetries` attempts each,
    after one sleep per rejection that came before.
   */
  lemma {:induction false} SentAfterRejections(mapiError: Option<string>, create: nat -> Attempt, send: nat -> Attempt, maxRetries: int, sendExhausted: string)
    requires Dispatch(mapiError, create, send, maxRetries, sendExhausted).Sent?
    ensures mapiError.None?
    ensures var d := Dispatch(mapiError, create, send, maxRetries, sendExhausted);
      d.createSleeps < maxRetries && AllTransient(create, d.createSleeps) && create(d.createSleeps) == Success
      && d.sendSleeps < maxRetries && AllTransient(send, d.sendSleeps) && send(d.sendSleeps) == Success
  {
    TransientResultPolicy(create, maxRetries);
    TransientResultPolicy(send, maxRetries);
  }

  /** A CreateItem rejected on every attempt raises the CreateItem error, and nothing is sent. */
  lemma {:induction false} CreateRejectedThroughout(create: nat -> Attempt, send: nat -> Attempt, maxRetries: nat, sendExhausted: string)
    requires AllTransient(create, maxRetries)
    ensures Dispatch(None, create, send, maxRetries, sendExhausted) == Failed(CreateExhausted)
  {
    AlwaysRejectedGivesUp(create, maxRetries);
  }

  /** Once the item exists, a Send rejected on every attempt raises the Send error. */
  lemma {:induction false} SendRejectedThroughout(create: nat -> Attempt, send: nat -> Attempt, maxRetries: nat, sendExhausted: string, n: nat)
    requires n < maxRetries && AllTransient(create, n) && create(n) == Success
    requires AllTransient(send, maxRetries)
    ensures Dispatch(None, create, send, maxRetries, sendExhausted) == Failed(sendExhausted)
  {
    TransientThenSuccess(create, maxRetries, n);
    AlwaysRejectedGivesUp(send, maxRetries);
  }

  /** A CreateItem failure that is not a rejection propagates as it is. */
  lemma {:induction false} CreateFailurePropagates(create: nat -> Attempt, send: nat -> Attempt, maxRetries: int, sendExhausted: string, n: nat)
    requires n < maxRetries && AllTransient(create, n)
    requires create(n).Failure? && !Transient(create(n).message)
    ensures Dispatch(None, create, send, maxRetries, sendExhausted) == Failed(create(n).message)
  {
    PermanentFailureStops(create, maxRetries, n);
  }

  /** The Outlook side of a dispatch: MAPI logon, then the outcomes of each CreateItem and each Send. */
  datatype OutlookEnv = OutlookEnv(mapiError: Option<string>, create: nat -> Attempt, session: Session, send: nat -> Attempt)

  /** The mail item composed from `draft` in `session`: the account found, the fields as given, the attachments accepted. */
  predicate Composed(item: MailItem, draft: Draft, session: Session) {
    FirstMatch(session.accounts, draft.fromAccount, item.account)
    && item.to == draft.to && item.cc == draft.cc && item.bcc == draft.bcc && item.subject == draft.subject
    && item.htmlBody == draft.html
    && item.attachments == Attached(draft.attachments, session.attachable)
  }

  /**
    The steps of `send_email_via_outlook` around its two retry loops: the
    MAPI session, CreateItem, then the mail composed from `draft`, then
    Send. The mail item exists once CreateItem has succeeded.
   */
  method DeliverMail(draft: Draft, env: OutlookEnv, maxRetries: int, sendExhausted: string) returns (d: Delivery, mail: Option<MailItem>)
    ensures d == Dispatch(env.mapiError, env.create, env.send, maxRetries, sendExhausted)
    ensures mail.Some? <==> env.mapiError.None? && TransientResult(env.create, maxRetries).0.Succeeded?
    ensures mail.Some? ==> Composed(mail.value, draft, env.session)
  {
    if env.mapiError.Some? {
      return Failed(env.mapiError.value), None;
    }
    var created, createSleeps := RetryTransient(env.create, maxRetries);
    if created.Raised? {
      return Failed(created.message), None;
    }
    if created.GaveUp? {
      return Failed(CreateExhausted), None;
    }
    var account := MatchAccount(env.session.accounts, draft.fromAccount);
    var attached := AttachFiles(draft.attachments, env.session.attachable);
    mail := Some(MailItem(account, draft.to, draft.cc, draft.bcc, draft.subject, draft.html, attached));
    var sent, sendSleeps := RetryTransient(env.send, maxRetries);
    if sent.Raised? {
      d := Failed(sent.message);
    } else if sent.GaveUp? {
      d := Failed(sendExhausted);
    } else {
      d := Sent(createSleeps, sendSleeps);
    }
  }

  /** `send_email_via_outlook`: the draft built from the request and the files, delivered. */
  method SendEmailViaOutlook(req: OutlookRequest, env: OutlookEnv, files: OutlookFiles) returns (d: Delivery, mail: Option<MailItem>)
    ensures d == Dispatch(env.mapiError, env.create, env.send, req.maxRetries, SendExhausted(req.to, req.maxRetries))
    ensures mail.Some? <==> env.mapiError.None? && TransientResult(env.create, req.maxRetries).0.Succeeded?
    ensures mail.Some? ==> Composed(mail.value, OutlookDraft(req, files), env.session)
  {
    d, mail := DeliverMail(OutlookDraft(req, files), env, req.maxRetries, SendExhausted(req.to, req.maxRetries));
  }
}
