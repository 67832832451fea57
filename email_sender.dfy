/** `EmailSender`: checks the login once, then sends one message per client with
    every report attached, catching each client's failure so that the others are
    still tried. SMTP and the file system are given as answers rather than used. */
module EmailSending {
  import opened PyStr
  import opened Parameters
  import opened Domain
  import opened ConfigReading

  newtype byte = b: int | 0 <= b < 256

  /** What `open(path, 'rb').read()` gives, or `None` when opening fails. */
  type Files = string -> Option<seq<byte>>

  /** How the server behaves during one SMTP conversation: whether the connection
      and STARTTLS succeed, whether it accepts the login, and whether it accepts
      the message. */
  datatype Session = Session(connects: bool, authenticates: bool, delivers: bool)

  /** A report as attached: its MIME subtype, the `filename` of its
      Content-Disposition header, and its bytes. */
  datatype Attachment = Attachment(subtype: string, filename: string, content: seq<byte>)

  /** The `MIMEMultipart` message: From, To, Subject, the plain-text body and the attachments. */
  datatype Message = Message(sender: Value, to: string, subject: Value, body: Value, attachments: seq<Attachment>)

  /** What happened for one client: the message was sent, or the exception that was caught and logged. */
  datatype Delivery = Sent(client: string, message: Message) | NotSent(client: string, error: Exception)

  /** `test_login`'s result, the dictionary after it, and whether it attempted an SMTP session. */
  datatype LoginResult = LoginResult(outcome: Outcome<bool>, params: Params, attempted: bool)

  /** The subtype `send_email` passes to `MIMEApplication`: `str(report.rfind('.'))`,
      the position of the last '.', which is never a file type. */
  function SubtypeAsWritten(path: string): (r: string)
    ensures forall k | 0 <= k < |r| :: '0' <= r[k] <= '9' || (k == 0 && r[k] == '-')
  {
    IntToString(RFind(path, '.'))
  }

  /** The subtype evidently meant: the file's extension, or `MIMEApplication`'s
      default `octet-stream` when the path has no '.'. */
  function Extension(path: string): (r: string)
    ensures '.' !in path ==> r == "octet-stream"
    ensures '.' in path ==> '.' !in r
  {
    if '.' in path then AfterLast(path, '.') else "octet-stream"
  }

  /** With a '.', the extension is what follows the last one, which is where
      `rfind` points. */
  lemma ExtensionSplits(path: string)
    requires '.' in path
    ensures path == path[..RFind(path, '.')] + "." + Extension(path)
  {
    SplitAtLast(path, '.');
    assert "." == ['.'];
  }

  /** The extension of `stem.ext` is `ext`, whatever the stem holds. */
  lemma ExtensionOfName(stem: string, ext: string)
    requires '.' !in ext
    ensures Extension(stem + "." + ext) == ext
  {
    var p := stem + "." + ext;
    assert p == stem + ['.'] + ext;
    assert p[|stem|] == '.';
    AfterLastOf(stem, '.', ext);
  }

  /** As written, the subtype of `report.pdf` is `6`, not `pdf`. */
  lemma SubtypeOfReportPdf()
    ensures SubtypeAsWritten("report.pdf") == "6"
    ensures Extension("report.pdf") == "pdf"
  {
    ExtensionOfName("report", "pdf");
    assert "report" + "." + "pdf" == "report.pdf";
  }

  /** As written, a report whose extension holds a letter never gets its type:
      the subtype is a number. */
  lemma SubtypeAsWrittenIsNeverAnExtension(path: string, k: nat)
    requires '.' in path
    requires k < |Extension(path)| && !('0' <= Extension(path)[k] <= '9') && Extension(path)[k] != '-'
    ensures SubtypeAsWritten(path) != Extension(path)
  {
  }

  /** The part `send_email` attaches for one report: the subtype it passes as
      written (the position of the last '.'), the file name without the
      directories, and the bytes. */
  function ReportAttachment(path: string, content: seq<byte>): (a: Attachment)
    ensures a.subtype == IntToString(RFind(path, '.'))
    ensures '/' !in a.filename && a.content == content
  {
    Attachment(SubtypeAsWritten(path), Basename(path), content)
  }

  /** The attachments of the first `n` reports, opened in order; the first of
      them that cannot be opened raises. */
  function AttachUpTo(paths: seq<string>, files: Files, n: nat): (r: Outcome<seq<Attachment>>)
    requires n <= |paths|
    ensures r.Returned? <==> forall k | 0 <= k < n :: files(paths[k]).Some?
    ensures r.Returned? ==> |r.value| == n
  {
    if n == 0 then Returned([])
    else match AttachUpTo(paths, files, n - 1)
      case Raised(e) => Raised(e)
      case Returned(before) =>
        match files(paths[n - 1])
        case None => Raised(FileError(paths[n - 1]))
        case Some(content) => Returned(before + [ReportAttachment(paths[n - 1], content)])
  }

  /** One attachment per report, in order (`AttachEach`); any report that cannot
      be opened makes it raise, the first such (`AttachStopsAt`). */
  function Attach(paths: seq<string>, files: Files): (r: Outcome<seq<Attachment>>)
    ensures r.Returned? <==> forall k | 0 <= k < |paths| :: files(paths[k]).Some?
    ensures r.Returned? ==> |r.value| == |paths|
  {
    AttachUpTo(paths, files, |paths|)
  }

  /** One more report: it is opened and attached after the others, or raises. */
  lemma AttachNext(paths: seq<string>, files: Files, n: nat)
    requires n < |paths| && AttachUpTo(paths, files, n).Returned?
    ensures files(paths[n]).None? ==> AttachUpTo(paths, files, n + 1) == Raised(FileError(paths[n]))
    ensures files(paths[n]).Some? ==>
      AttachUpTo(paths, files, n + 1)
        == Returned(AttachUpTo(paths, files, n).value + [ReportAttachment(paths[n], files(paths[n]).value)])
  {
  }

  /** The k-th attachment is the k-th report's: its subtype, its file name and its
      bytes. */
  lemma {:induction false} AttachEach(paths: seq<string>, files: Files, n: nat, k: nat)
    requires n <= |paths| && AttachUpTo(paths, files, n).Returned? && k < n
    ensures AttachUpTo(paths, files, n).value[k] == ReportAttachment(paths[k], files(paths[k]).value)
  {
    AttachNext(paths, files, n - 1);
    if k < n - 1 {
      AttachEach(paths, files, n - 1, k);
    }
  }

  /** Attaching every report, each of them readable, gives their attachments in order. */
  lemma AttachAll(paths: seq<string>, files: Files, attachments: seq<Attachment>)
    requires |attachments| == |paths|
    requires forall k | 0 <= k < |paths| :: files(paths[k]).Some?
    requires forall k | 0 <= k < |paths| :: attachments[k] == ReportAttachment(paths[k], files(paths[k]).value)
    ensures Attach(paths, files) == Returned(attachments)
  {
    forall k | 0 <= k < |paths|
      ensures Attach(paths, files).value[k] == attachments[k]
    {
      AttachEach(paths, files, |paths|, k);
    }
    assert Attach(paths, files).value == attachments;
  }

  /** Once a report cannot be opened, attaching more reports raises the same. */
  lemma {:induction false} AttachRaisedStays(paths: seq<string>, files: Files, n: nat, m: nat)
    requires n <= m <= |paths| && AttachUpTo(paths, files, n).Raised?
    ensures AttachUpTo(paths, files, m) == AttachUpTo(paths, files, n)
    decreases m - n
  {
    if n < m {
      AttachRaisedStays(paths, files, n + 1, m);
    }
  }

  /** Attaching stops with the first report that cannot be opened, and raises
      for that one. */
  lemma AttachStopsAt(paths: seq<string>, files: Files, i: nat)
    requires i < |paths| && files(paths[i]).None?
    requires forall k | 0 <= k < i :: files(paths[k]).Some?
    ensures Attach(paths, files) == Raised(FileError(paths[i]))
  {
    AttachRaisedStays(paths, files, i + 1, |paths|);
  }

  /** The message for one client, built in the order `send_email` builds it: From, To,
      Subject, the body, then every report; the first missing key, non-iterable
      report list or unreadable report raises. */
  function Compose(m: Params, client: string, files: Files): (r: Outcome<Message>)
    ensures r.Returned? <==>
      && USERNAME in m && SUBJECT in m && BODY in m && REPORTS in m
      && Elements(m[REPORTS]).Some? && Attach(Elements(m[REPORTS]).value, files).Returned?
    ensures USERNAME !in m ==> r == Raised(KeyError(USERNAME))
    ensures r.Returned? ==>
      && r.value.sender == m[USERNAME] && r.value.to == client
      && r.value.subject == m[SUBJECT] && r.value.body == m[BODY]
      && r.value.attachments == Attach(Elements(m[REPORTS]).value, files).value
  {
    if USERNAME !in m then Raised(KeyError(USERNAME))
    else if SUBJECT !in m then Raised(KeyError(SUBJECT))
    else if BODY !in m then Raised(KeyError(BODY))
    else if REPORTS !in m then Raised(KeyError(REPORTS))
    else match Elements(m[REPORTS])
      case None => Raised(TypeError(REPORTS))
      case Some(paths) =>
        match Attach(paths, files)
        case Raised(e) => Raised(e)
        case Returned(attachments) =>
          Returned(Message(m[USERNAME], client, m[SUBJECT], m[BODY], attachments))
  }

  /** One pass of the loop body for `client`: compose, connect, STARTTLS, log in and
      send, every exception being caught and recorded against the client. */
  function Deliver(m: Params, client: string, files: Files, s: Session): (r: Delivery)
    ensures r.client == client
    ensures r.Sent? <==>
      && Compose(m, client, files).Returned?
      && SERVER in m && PORT in m && s.connects && PASSWORD in m && s.authenticates && s.delivers
    ensures r.Sent? ==> r.message == Compose(m, client, files).value
  {
    match Compose(m, client, files)
    case Raised(e) => NotSent(client, e)
    case Returned(msg) =>
      if SERVER !in m then NotSent(client, KeyError(SERVER))
      else if PORT !in m then NotSent(client, KeyError(PORT))
      else if !s.connects then NotSent(client, ConnectionError)
      else if PASSWORD !in m then NotSent(client, KeyError(PASSWORD))
      else if !s.authenticates then NotSent(client, AuthenticationError)
      else if !s.delivers then NotSent(client, SendError)
      else Sent(client, msg)
  }

  /** `send_email`: the i-th client is tried once, in list order, against the i-th
      SMTP conversation and the reports as they open for it (the report loop runs
      inside the client loop, so every client opens them afresh); only reading
      `clients_email` itself can raise. */
  function Dispatch(m: Params, files: nat -> Files, replies: nat -> Session): (r: Outcome<seq<Delivery>>)
    ensures r.Raised? <==> CLIENTS !in m || m[CLIENTS].Int?
    ensures r.Returned? ==> |r.value| == |Elements(m[CLIENTS]).value|
    ensures r.Returned? ==>
      forall i | 0 <= i < |r.value| :: r.value[i] == Deliver(m, Elements(m[CLIENTS]).value[i], files(i), replies(i))
  {
    match Get(m, CLIENTS)
    case None => Raised(KeyError(CLIENTS))
    case Some(v) =>
      match Elements(v)
      case None => Raised(TypeError(CLIENTS))
      case Some(clients) =>
        Returned(seq(|clients|, i requires 0 <= i < |clients| => Deliver(m, clients[i], files(i), replies(i))))
  }

  /** Every client is tried exactly once, in order: the deliveries name the clients
      of the list one for one. */
  lemma DispatchInOrder(m: Params, files: nat -> Files, replies: nat -> Session)
    requires Dispatch(m, files, replies).Returned?
    ensures var d := Dispatch(m, files, replies).value;
      forall i | 0 <= i < |d| :: d[i].client == Elements(m[CLIENTS]).value[i]
  {
    var d := Dispatch(m, files, replies).value;
    forall i | 0 <= i < |d|
      ensures d[i].client == Elements(m[CLIENTS]).value[i]
    {
      assert d[i] == Deliver(m, Elements(m[CLIENTS]).value[i], files(i), replies(i));
    }
  }

  /** A failure for one client does not affect the others: whatever the i-th
      conversation does and however the reports open for the i-th client, every
      other client gets the same delivery. */
  lemma FailureIsIsolated(m: Params, f1: nat -> Files, f2: nat -> Files, r1: nat -> Session, r2: nat -> Session, i: nat)
    requires forall j: nat | j != i :: f1(j) == f2(j) && r1(j) == r2(j)
    requires Dispatch(m, f1, r1).Returned?
    ensures Dispatch(m, f2, r2).Returned?
    ensures var d1, d2 := Dispatch(m, f1, r1).value, Dispatch(m, f2, r2).value;
      |d1| == |d2| && forall j | 0 <= j < |d1| && j != i :: d1[j] == d2[j]
  {
    var d1, d2 := Dispatch(m, f1, r1).value, Dispatch(m, f2, r2).value;
    forall j | 0 <= j < |d1| && j != i
      ensures d1[j] == d2[j]
    {
      assert f1(j) == f2(j) && r1(j) == r2(j);
    }
  }

  /** With a complete dictionary, readable reports and a cooperative server, every
      client is sent a message from the configured sender with every report attached. */
  lemma AllSentWhenHealthy(m: Params, files: nat -> Files, replies: nat -> Session)
    requires CLIENTS in m && m[CLIENTS].List?
    requires USERNAME in m && SUBJECT in m && BODY in m && SERVER in m && PORT in m && PASSWORD in m
    requires REPORTS in m && m[REPORTS].List?
    requires forall i, k | 0 <= i < |m[CLIENTS].items| && 0 <= k < |m[REPORTS].items| ::
      files(i)(m[REPORTS].items[k]).Some?
    requires forall i: nat :: replies(i) == Session(true, true, true)
    ensures Dispatch(m, files, replies).Returned?
    ensures var d := Dispatch(m, files, replies).value;
      && |d| == |m[CLIENTS].items|
      && forall i | 0 <= i < |d| ::
           && d[i].Sent? && d[i].client == m[CLIENTS].items[i]
           && d[i].message.sender == m[USERNAME]
           && |d[i].message.attachments| == |m[REPORTS].items|
  {
    var d := Dispatch(m, files, replies).value;
    forall i | 0 <= i < |d|
      ensures d[i].Sent? && d[i].client == m[CLIENTS].items[i]
      ensures d[i].message.sender == m[USERNAME] && |d[i].message.attachments| == |m[REPORTS].items|
    {
      assert replies(i) == Session(true, true, true);
      assert d[i] == Deliver(m, m[CLIENTS].items[i], files(i), replies(i));
    }
  }

  /** `test_login`: an unsupported sender domain gives False before any session is
      attempted; otherwise the server is written into the dictionary, a session is
      attempted, and the login decides. Only an authentication failure is caught. */
  function Login(m: Params, s: Session): (r: LoginResult)
    ensures USERNAME !in m ==> r == LoginResult(Raised(KeyError(USERNAME)), m, false)
    ensures r.attempted <==> USERNAME in m && m[USERNAME].Str? && Resolve(m[USERNAME].s).Some?
    ensures r.params == if r.attempted then WithServer(m, Resolve(m[USERNAME].s).value) else m
    ensures r.outcome == Returned(true) <==> r.attempted && s.connects && PASSWORD in m && s.authenticates
    ensures r.outcome == Returned(false) <==>
      USERNAME in m && m[USERNAME].Str? && (!r.attempted || (s.connects && PASSWORD in m && !s.authenticates))
  {
    match Get(m, USERNAME)
    case None => LoginResult(Raised(KeyError(USERNAME)), m, false)
    case Some(user) =>
      if !user.Str? then LoginResult(Raised(AttributeError(USERNAME)), m, false)
      else match Resolve(user.s)
        case None => LoginResult(Returned(false), m, false)
        case Some(server) =>
          var m' := WithServer(m, server);
          var outcome :=
            if !s.connects then Raised(ConnectionError)
            else if PASSWORD !in m' then Raised(KeyError(PASSWORD))
            else Returned(s.authenticates);
          LoginResult(outcome, m', true)
  }

  /** The validator and the sender resolve servers alike: after a successful
      `check_parameters`, logging in opens a session and rewrites the server
      entries with exactly the values already there. */
  lemma LoginAfterValidation(m: Params, env: Environment, s: Session)
    requires Check(m, env).verdict.Accepted?
    ensures Login(Check(m, env).params, s).attempted
    ensures Login(Check(m, env).params, s).params == Check(m, env).params
  {
    var p := Check(m, env).params;
    assert p[USERNAME] == m[USERNAME];
    WithServerIdempotent(p, Resolve(m[USERNAME].s).value);
    var m2 := m[CLIENTS := List(CommaList(m[CLIENTS].s))][REPORTS := List(CommaList(m[REPORTS].s))];
    assert p == WithServer(m2, Resolve(m[USERNAME].s).value);
  }

  /** The inner loop of `send_email`: each report is opened and attached in turn,
      and the first one that cannot be opened raises out of the loop. */
  method AttachReports(paths: seq<string>, files: Files) returns (r: Outcome<seq<Attachment>>)
    ensures r == Attach(paths, files)
  {
    var attachments := [];
    for i := 0 to |paths|
      invariant AttachUpTo(paths, files, i) == Returned(attachments)
    {
      AttachNext(paths, files, i);
      var content := files(paths[i]);
      if content.None? {
        AttachRaisedStays(paths, files, i + 1, |paths|);
        return Raised(FileError(paths[i]));
      }
      attachments := attachments + [ReportAttachment(paths[i], content.value)];
    }
    return Returned(attachments);
  }

  /** The mailer's `EmailSender`; it keeps the reader's dictionary object, so the
      server it writes at login is visible to the reader as well. */
  class EmailSender {
    const parameters: Dict

    constructor (parameters: Dict)
      ensures this.parameters == parameters
    {
      this.parameters := parameters;
    }

    /** `test_login`, against the server's behaviour for this one conversation. */
    method TestLogin(s: Session) returns (outcome: Outcome<bool>, attempted: bool)
      modifies parameters
      ensures LoginResult(outcome, parameters.items, attempted) == Login(old(parameters.items), s)
    {
      var user := Get(parameters.items, USERNAME);
      if user.None? {
        return Raised(KeyError(USERNAME)), false;
      }
      if !user.value.Str? {
        return Raised(AttributeError(USERNAME)), false;
      }
      var ok := AddServerConfiguration(parameters, user.value.s);
      if !ok {
        return Returned(false), false;
      }
      attempted := true;
      if !s.connects {
        return Raised(ConnectionError), attempted;
      }
      if PASSWORD !in parameters.items {
        return Raised(KeyError(PASSWORD)), attempted;
      }
      if !s.authenticates {
        return Returned(false), attempted;
      }
      outcome := Returned(true);
    }

    /** `send_email`: the i-th client is tried against the i-th SMTP conversation,
        with the reports as they open for it. */
    method SendEmail(files: nat -> Files, replies: nat -> Session) returns (result: Outcome<seq<Delivery>>)
      ensures result == Dispatch(parameters.items, files, replies)
    {
      var recipients := Get(parameters.items, CLIENTS);
      if recipients.None? {
        return Raised(KeyError(CLIENTS));
      }
      var clients := Elements(recipients.value);
      if clients.None? {
        return Raised(TypeError(CLIENTS));
      }
      var deliveries := [];
      for i := 0 to |clients.value|
        invariant |deliveries| == i
        invariant forall k | 0 <= k < i :: deliveries[k] == Deliver(parameters.items, clients.value[k], files(k), replies(k))
      {
        var d := SendTo(clients.value[i], files(i), replies(i));
        deliveries := deliveries + [d];
      }
      assert Dispatch(parameters.items, files, replies).value == deliveries;
      return Returned(deliveries);
    }

    /** The body of the `try` for one client, as the statements `send_email` runs
        on the shared dictionary; `Deliver` is the same step as a value, which
        the lemmas about every client use. */
    method SendTo(client: string, files: Files, s: Session) returns (d: Delivery)
      ensures d == Deliver(parameters.items, client, files, s)
    {
      var msg := ComposeMessage(client, files);
      if msg.Raised? {
        return NotSent(client, msg.error);
      }
      var m := parameters.items;
      if SERVER !in m { return NotSent(client, KeyError(SERVER)); }
      if PORT !in m { return NotSent(client, KeyError(PORT)); }
      if !s.connects { return NotSent(client, ConnectionError); }
      if PASSWORD !in m { return NotSent(client, KeyError(PASSWORD)); }
      if !s.authenticates { return NotSent(client, AuthenticationError); }
      if !s.delivers { return NotSent(client, SendError); }
      return Sent(client, msg.value);
    }

    /** Setting up the message, up to the last attached report, step by step with
        the report loop; `Compose` is the same step as a value, for the lemmas. */
    method ComposeMessage(client: string, files: Files) returns (msg: Outcome<Message>)
      ensures msg == Compose(parameters.items, client, files)
    {
      var m := parameters.items;
      if USERNAME !in m { return Raised(KeyError(USERNAME)); }
      if SUBJECT !in m { return Raised(KeyError(SUBJECT)); }
      if BODY !in m { return Raised(KeyError(BODY)); }
      if REPORTS !in m { return Raised(KeyError(REPORTS)); }
      var paths := Elements(m[REPORTS]);
      if paths.None? { return Raised(TypeError(REPORTS)); }
      var attachments := AttachReports(paths.value, files);
      if attachments.Raised? { return Raised(attachments.error); }
      return Returned(Message(m[USERNAME], client, m[SUBJECT], m[BODY], attachments.value));
    }
  }
}
