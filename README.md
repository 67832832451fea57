# Automated email reports, modelled in Dafny

The mailer reads `config.ini` into one parameter dictionary. It validates the
dictionary, and on the first failed check it clears the whole thing. It then
tests the SMTP login and hands the same dictionary to a `sched` scheduler.
The scheduler fires once at the configured time and every day after that.
Each firing re-arms the next event first and then sends one message per
client, with every report attached; a failure for one client is caught and
the other clients are still tried.

The model has six modules:

- `PyStr` (`pystr.dfy`): the Python string built-ins the code relies on, on
  `seq<char>`. These are `strip`, `split`, `find`, `rfind`,
  `replace(" ", "")`, `str(int)` and `os.path.basename`. It also defines
  `join`, which the mailer does not call, as the inverse that states what
  `split` computes.
- `Parameters` (`parameters.dfy`): the dictionary values (raw strings, lists,
  the integer port) and the Python exceptions the core raises. It also holds
  `Dict`, the one dictionary object that the reader and the sender share.
- `Domain` (`domain.dfy`): `extract_domain` and the three-entry server table.
  The mailer has a copy in each class; here it is defined once and both
  classes call it, so validation and sending resolve every address alike.
- `ConfigReading` (`config_reader.dfy`): the `ConfigReader` class.
  `ReadConfigFile` and `CheckParameters` are methods on the shared `Dict`.
  Each is proved equal to a specification function (`Read`, `Check`), and the
  lemmas state what those functions guarantee.
- `EmailSending` (`email_sender.dfy`): the `EmailSender` class. It covers
  `TestLogin`, and `SendEmail` with its loop over clients and its inner loop
  over reports. These are specified by `Login`, `Compose`, `Deliver` and
  `Dispatch`.
- `Scheduling` (`scheduling.dfy`): `send_daily_reports`, and a `Scheduler`
  class that holds the pending event times and a clock. It also covers the
  scheduler's run loop and `main` (`Launch`, specified by `Main`).

The outside world comes in as parameters:

- the file's lines, or `Missing` / `Unreadable`;
- the current time, `strptime` as a partial map from text to a timestamp,
  and the set of paths that exist;
- for each client at each firing, and for each report path, its bytes or a
  failure to open it then (`send_email` opens the reports afresh for every
  client at every firing);
- for each SMTP conversation, whether it connects, authenticates and
  delivers;
- for each firing, how long the dispatch takes.

An exception that escapes (a `KeyError`, `TypeError` or `AttributeError` from
a missing or wrongly typed entry, a failed SMTP connection at login) is
modelled as a `Raised` outcome, never as a precondition.

Where the code's behaviour is easy to misread, the model follows the code:

- The next event is entered with `sched.enter(86400, ...)`. It is therefore
  due a day after the clock at re-arm, which is when the previous event
  fired. A firing that is late makes every later firing late too
  (`FiringsDrift`, `FiringsOnTime`).
- The schedule is rejected only when it is earlier than now (`<`), so a time
  equal to now is accepted (`ValidateDatetimeFormat`). The current time here
  is a whole number of seconds, the clock rounded up to the second.
- A line that does not split into exactly two parts around `=` raises
  inside `read_config_file`'s `try`. The error is logged and validation
  never runs. The keys read before that line stay in the dictionary. So when
  at least one key was read before it, `main` does not print its
  configuration message. It goes on to `test_login`, which raises `KeyError`
  when the sender address was not among those keys
  (`MalformedLineKeepsEarlierKeys`, `MalformedLineEscapesAtLogin`). A
  malformed first line leaves the dictionary empty, and the configuration
  message is printed.
- An exception raised by `check_parameters` (for instance a missing
  `schedule`, which reaches `strptime` as `None`) is not caught. The call
  sits in the `else` clause of the `try`, so the exception escapes `main`.

## Model

| member | source | states |
|---|---|---|
| PyStr.Strip | config_reader.py:24 | the stripped line has no whitespace at either end and is no longer than the line |
| PyStr.StripEmptyIffBlank | config_reader.py:24-25 | a line strips to nothing exactly when all its characters are whitespace, so exactly the blank lines are skipped |
| PyStr.StripPadded | config_reader.py:24 | any whitespace around a trimmed string is removed and the string itself is kept intact |
| PyStr.StripAvoids | config_reader.py:26 | stripping never introduces a character, so a stripped part has no '=' if the part had none |
| PyStr.RemoveSpaces | config_reader.py:47 | the result holds no ' ' and is no longer than the input |
| PyStr.RemoveSpacesKeepsOthers | config_reader.py:47 | exactly the spaces are removed: as a multiset, the result is the input's characters minus every ' ', and it is the input itself when it holds no space |
| PyStr.RemoveSpacesAppend | config_reader.py:47 | removing spaces works piecewise, so the order of the kept characters is the input's: the result for `a + b` is the result for `a` followed by the result for `b`, and one character is dropped exactly when it is ' ' |
| PyStr.Split | config_reader.py:26 | a split is never empty and no part contains the separator |
| PyStr.SplitCount | config_reader.py:26 | a string splits into one part more than it has separators, so a line unpacks into key and value exactly when it holds one '=' |
| PyStr.JoinSplit | config_reader.py:47 | joining the parts of a split with the separator gives the string back |
| PyStr.SplitJoin | config_reader.py:47 | splitting a join of separator-free parts gives the parts back |
| PyStr.SplitNoSeparator | config_reader.py:26 | a string without the separator splits into itself alone |
| PyStr.SplitPrefix | config_reader.py:26 | a separator-free prefix before the first separator becomes the first part |
| PyStr.JoinAvoids | config_reader.py:47 | a character absent from the joined text is absent from every part |
| PyStr.Find | config_reader.py:128-129 | the first index at or after the start holding the character, and -1 exactly when there is none |
| PyStr.RFind | email_sender.py:88 | the last index holding the character, and -1 exactly when there is none |
| PyStr.AfterLast | email_sender.py:89 | the text after the last occurrence of a character holds no such character and is no longer than the string |
| PyStr.AfterLastIsSuffix | email_sender.py:89 | that text is a suffix of the string, preceded by the character or by nothing |
| PyStr.AfterLastOf | email_sender.py:89 | for `left + c + right` with no `c` in `right`, the text after the last `c` is `right` |
| PyStr.SplitAtLast | email_sender.py:88 | `rfind` points at the last occurrence: the string is what precedes it, the character, and the text after the last occurrence |
| PyStr.Basename | email_sender.py:89 | the file name holds no '/' and is no longer than the path |
| PyStr.BasenameIsLastComponent | email_sender.py:89 | the file name is the suffix of the path after its last '/', or the whole path |
| PyStr.BasenameOfPath | email_sender.py:89 | the file name of `dir/name` is `name` for every directory |
| PyStr.IntToString | email_sender.py:88 | `str(n)` is at least one decimal digit, with a leading '-' exactly when n is negative |
| PyStr.NatToString | email_sender.py:88 | the decimal text of a natural number is non-empty and all digits |
| PyStr.NatToStringValue | email_sender.py:88 | the decimal text of n has the value n, and starts with '0' only for 0 |
| PyStr.IntToStringValue | email_sender.py:88 | `str(n)` denotes n: the digits after any '-' are non-empty, have the value of n's magnitude, and have no leading zero unless n is 0 |
| Parameters.Truthy | config_reader.py:46 | a looked-up entry is false exactly when it is missing, the empty string, the empty list or 0, as Python's truth test on `parameters.get(...)` has it (also on line 60) |
| Parameters.Get | config_reader.py:46 | `get` gives a value exactly when the key is present, and that value is the stored one |
| Parameters.Elements | email_sender.py:74 | a list iterates over its items and a string over its characters, and only an integer cannot be iterated |
| Parameters.Dict.constructor | config_reader.py:14-15 | the reader starts with an empty dictionary |
| Domain.ExtractDomain | config_reader.py:124-135 | no '@' gives None, and a domain returned holds no '.' and lies inside the address |
| Domain.DomainOfAddress | config_reader.py:128-133 | for every address pre@domain.rest with no '@' in pre and no '.' in domain, the extracted domain is exactly domain, possibly empty |
| Domain.AddressOfDomain | config_reader.py:128-135 | conversely, every domain returned comes from such a decomposition of the address |
| Domain.ServerFor | config_reader.py:110-120 | a server exactly for gmail, yahoo and outlook, compared case-sensitively, with their three hosts, all on port 587 |
| Domain.Resolve | config_reader.py:108-120 | an address has a server exactly when its extracted domain is gmail, yahoo or outlook; an address without '@' never has one; every server is on port 587 |
| Domain.WithServer | config_reader.py:111-118 | configuring a server adds exactly `email_server` and `email_port` and keeps every other entry |
| Domain.WithServerIdempotent | email_sender.py:42-50 | configuring the same server twice is the same as configuring it once |
| Domain.AddServerConfiguration | config_reader.py:104-122 | reports success exactly for a supported domain, and writes the server and port then; otherwise the dictionary is unchanged |
| Domain.ResolveOutlook | config_reader.py:116-118 | every address at outlook resolves to smtp.office365.com on port 587 |
| Domain.ResolveEmptyDomain | config_reader.py:131-133 | `pre@.rest` extracts the empty domain, which is not supported |
| Domain.ResolveCapitalised | config_reader.py:110 | a capitalised domain (`Gmail`) is not supported |
| Domain.DotBeforeAt | config_reader.py:128-129 | for every `pre@post` with no '@' in pre and no '.' in post there is no domain: a '.' before the '@' does not count |
| ConfigReading.ParseLine | config_reader.py:24-27 | a line is skipped exactly when blank or a '#' comment, is malformed exactly when it does not hold one '=', and otherwise gives a trimmed key and value free of '=' |
| ConfigReading.ParseWrittenLine | config_reader.py:24-27 | a line written `key=value` with trimmed, '='-free parts reads back as that key and value |
| ConfigReading.ParsePaddedLine | config_reader.py:24-27 | the same holds with any whitespace before the key, around the '=' and after the value |
| ConfigReading.Store | config_reader.py:23-27 | storing reads to the end exactly when no line is malformed, and never loses a key |
| ConfigReading.StoreAddsOnlyReadKeys | config_reader.py:27 | the keys after reading are the keys before and those named by the entries read, and no others |
| ConfigReading.StoreKeepsStrings | config_reader.py:27 | reading only ever stores raw strings |
| ConfigReading.StoreAppend | config_reader.py:23-27 | reading two runs of lines is reading the first and then, if it completed, the second |
| ConfigReading.StoreKeeps | config_reader.py:27 | lines that never name a key leave its value alone |
| ConfigReading.LaterDuplicateWins | config_reader.py:27 | a later line for the same key overwrites an earlier one |
| ConfigReading.MalformedLineStops | config_reader.py:26-33 | a malformed line stops the reading and keeps everything read before it |
| ConfigReading.MalformedLineKeepsEarlierKeys | config_reader.py:21-33 | `key=value` followed by a line without '=' ends in a read error, skips validation and leaves `key` holding the raw value |
| ConfigReading.CommaList | config_reader.py:47 | the list form is never empty and no item holds a space or a comma |
| ConfigReading.CommaListJoin | config_reader.py:47 | the items joined by commas are the original text with its spaces removed |
| ConfigReading.ValidateDatetimeFormat | config_reader.py:88-102 | accepted exactly when the text parses and the time is not earlier than now |
| ConfigReading.Warnings | config_reader.py:78-84 | a warning for the subject or the body exactly when that entry is the empty string |
| ConfigReading.Check | config_reader.py:41-86 | each rejection happens exactly when the checks before it pass and it fails (recipients, schedule, reports, domain); acceptance exactly when all pass; a rejection leaves an empty dictionary; acceptance leaves the comma lists and the server entries |
| ConfigReading.AcceptedLists | config_reader.py:47-66 | after acceptance both lists are non-empty and rejoin to the space-free text, every report path exists, and schedule and sender are kept |
| ConfigReading.EmptySubjectOrBodyOnlyWarns | config_reader.py:78-86 | the subject and body never change the verdict; they only decide the two warnings |
| ConfigReading.Read | config_reader.py:17-39 | a missing or unreadable file leaves the dictionary unvalidated; a read error happens exactly when a line is malformed, and leaves what the lines before it stored; a complete read gives `Check`'s verdict, dictionary and warnings on the stored dictionary; acceptance implies a supported sender; a rejection leaves an empty dictionary |
| ConfigReading.ReportsFound | config_reader.py:62-66 | the path loop succeeds exactly when every report path exists |
| ConfigReading.ConfigReader.constructor | config_reader.py:14-15 | a fresh, empty dictionary |
| ConfigReading.ConfigReader.ReadConfigFile | config_reader.py:17-39 | the line loop and validation leave the outcome, the dictionary and the warnings that `Read` gives |
| ConfigReading.ConfigReader.CheckParameters | config_reader.py:41-86 | the in-place checks leave the verdict, the dictionary and the warnings that `Check` gives |
| EmailSending.SubtypeAsWritten | email_sender.py:88 | the subtype passed as written is a decimal number, never a file type |
| EmailSending.Extension | email_sender.py:88 | the intended subtype (the corrected definition) is `octet-stream` without a '.', and otherwise holds no '.' |
| EmailSending.ExtensionSplits | email_sender.py:88 | with a '.', the path is its part before the last '.', the '.', and the extension |
| EmailSending.ExtensionOfName | email_sender.py:88 | the extension of `stem.ext` is `ext` for every stem |
| EmailSending.SubtypeOfReportPdf | email_sender.py:88 | for `report.pdf` the subtype as written is `6`, while the extension is `pdf` |
| EmailSending.SubtypeAsWrittenIsNeverAnExtension | email_sender.py:88 | an extension holding any non-digit differs from the subtype as written |
| EmailSending.ReportAttachment | email_sender.py:88-89 | the part for one report has the subtype as written (`str` of the last '.''s position), a file name without '/', and the report's bytes |
| EmailSending.AttachUpTo | email_sender.py:86-90 | opening the first n reports in order succeeds exactly when each of them can be opened, and then gives n attachments |
| EmailSending.Attach | email_sender.py:86-90 | attaching succeeds exactly when every report can be opened, and then gives one attachment per report |
| EmailSending.AttachEach | email_sender.py:86-90 | the k-th attachment is the k-th report's: the subtype as written for its path, its base name and its bytes |
| EmailSending.AttachRaisedStays | email_sender.py:86-87 | once a report cannot be opened, opening more reports raises the same exception |
| EmailSending.AttachAll | email_sender.py:86-90 | attachments built one per readable report, in order, are the result of attaching |
| EmailSending.AttachStopsAt | email_sender.py:86-87 | the first report that cannot be opened is the one that raises |
| EmailSending.AttachReports | email_sender.py:86-90 | the report loop gives `Attach`'s result |
| EmailSending.Compose | email_sender.py:77-90 | a message is built exactly when sender, subject, body and an iterable report list are present and every report opens; it has From = sender, To = client, the configured subject and body, and the attachments |
| EmailSending.Deliver | email_sender.py:75-101 | a client is sent its composed message exactly when composing succeeds, server, port and password are configured, and the server connects, authenticates and accepts; otherwise the failure is recorded against that client |
| EmailSending.Dispatch | email_sender.py:70-101 | sending raises only when `clients_email` is missing or not iterable, and otherwise gives one delivery per client, the i-th being `Deliver`'s attempt for the i-th client with the reports as they open for it and the i-th conversation |
| EmailSending.DispatchInOrder | email_sender.py:74 | the i-th delivery is for the i-th client of the list |
| EmailSending.FailureIsIsolated | email_sender.py:75-101 | whatever one client's conversation does and however the reports open for it, every other client gets the same delivery |
| EmailSending.AllSentWhenHealthy | email_sender.py:74-98 | with a complete dictionary, readable reports and a cooperative server, every client is sent a message from the sender with every report |
| EmailSending.Login | email_sender.py:19-34 | a session is attempted exactly for a supported sender; True exactly when it connects, a password is set and the login is accepted; False for an unsupported sender or a rejected login; a missing sender raises |
| EmailSending.LoginAfterValidation | email_sender.py:24 | after successful validation the login attempts a session and leaves the dictionary as validation left it |
| EmailSending.EmailSender.constructor | email_sender.py:16-17 | the sender keeps the reader's dictionary object |
| EmailSending.EmailSender.TestLogin | email_sender.py:19-34 | the outcome and the dictionary afterwards are those of `Login` |
| EmailSending.EmailSender.SendEmail | email_sender.py:70-101 | the client loop gives `Dispatch`'s result |
| EmailSending.EmailSender.SendTo | email_sender.py:75-101 | one pass of the client loop gives `Deliver`'s result |
| EmailSending.EmailSender.ComposeMessage | email_sender.py:77-90 | setting up the message gives `Compose`'s result |
| Scheduling.Insert | main.py:54 | filing an event adds exactly that time to the pending ones |
| Scheduling.InsertSorted | main.py:54 | filing keeps the pending events in due order |
| Scheduling.Scheduler.constructor | main.py:50 | a new scheduler has no pending event |
| Scheduling.Scheduler.EnterAbs | main.py:54 | entering at an absolute time files that time |
| Scheduling.Scheduler.Enter | main.py:27 | entering with a delay files the clock plus the delay |
| Scheduling.SendDailyReports | main.py:20-31 | the next event, a day after the clock, is pending before the reports are sent, whatever the sending does |
| Scheduling.Fire | main.py:20-31 | a firing happens when the event is due (or at once if overdue), leaves exactly the re-armed event a day later pending, and dispatches |
| Scheduling.Rounds | main.py:56 | a run records at most one firing per step and deliveries for at most every firing, and it ends without an exception exactly when every step delivered |
| Scheduling.RoundsShape | main.py:56 | a run fires once per step until a dispatch raises, stops right there with that exception, and records the deliveries of every firing before |
| Scheduling.RoundsTiming | main.py:26-27 | the first firing is when the event is due or at once, and each later one a day after the one before, or later after a dispatch longer than a day |
| Scheduling.CrashesFirstOrNever | main.py:31 | since every firing sends with the same dictionary, a run either raises at its first firing or completes every firing, each with that day's reports and conversations |
| Scheduling.FiringsDrift | main.py:26-27 | firings are at least a day apart, and exactly a day apart just when the dispatch took no more than a day |
| Scheduling.FiringsOnTime | main.py:26-27 | if no dispatch takes more than a day and the first event is not overdue, the k-th firing is exactly k days after the configured time |
| Scheduling.Run | main.py:56 | the run loop gives `Rounds`' firings, deliveries and crash, keeping exactly one event pending |
| Scheduling.Cycle | main.py:56 | one pass of the run loop fires once, keeps one event pending, and either ends the run with the dispatch's exception or leaves the rest of `Rounds` to come |
| Scheduling.Main | main.py:33-62 | the configuration message exactly when nothing escaped reading and the dictionary is empty; the authentication message exactly when the dictionary is non-empty, nothing escaped validation and the login returned False; an exception out of validation or the login escapes `main`; a login returning True starts the scheduler on the dictionary the login leaves (`Started`); no run without a successful login |
| Scheduling.Started | main.py:50-56 | the scheduler runs exactly when `schedule` is present, a string and parses, and the run is `Rounds` from the parsed time with the day-by-day dispatches; otherwise the lookup or the parse raises |
| Scheduling.Launch | main.py:33-62 | the gating, the login and the scheduler give `Main`'s result |
| Scheduling.StartScheduler | main.py:50-56 | parsing the schedule, entering it and running give `Started`'s result |
| Scheduling.FirstFiringAtSchedule | main.py:51-54 | with a configuration that validates and a successful login the scheduler runs; its first firing is never before the configured time, which is not before validation time, and is exactly at it when the scheduler starts no later |
| Scheduling.MalformedLineEscapesAtLogin | main.py:43-45 | a malformed line after a key other than the sender makes `main` raise `KeyError` at login instead of printing its configuration message |

## Left out

- Opening `config.ini` and the report files. The file is its lines (or
  `Missing` / `Unreadable`), and each report is its bytes or a failure to
  open it.
- `os.path.exists`, which is membership in a given set of paths.
- The fraction of a second in `datetime.now()`. The current time is a whole
  second, the clock rounded up. A parsed schedule has no fraction, so it is
  earlier than the clock exactly when it is earlier than that rounded value.
  A schedule equal to the current time is accepted only when the clock is on
  the second.
- `datetime.now`, `strptime` and `mktime`, local time and daylight saving. They
  are a current time and one partial text-to-timestamp map, used for both
  the validation and the scheduled time.
- `logging` and `print`. Their messages appear only as the outcome kinds
  (`NotFound`, `ReadError`, the warnings, `ConfigurationIssues`,
  `AuthenticationIssues`, `NotSent` with its exception).
- `smtplib` and MIME composition. One SMTP conversation is an oracle
  (connects, authenticates, delivers), and the message is its header fields,
  its body and its attachments, not its encoded text.
- Non-string header values. A `Value` that is not a string is carried into
  the message as is; what `MIMEText` or the header code would raise on it
  is not modelled.
- Blocking in `sched` and `time.sleep`. Waiting sets the clock to the due
  time. The seconds between a firing and its re-arm are taken as zero.
- Scheduling.Run: covers as many firings as it is given durations, since the
  real loop never ends.
- Scheduling.Run: does not state that after the last firing the pending
  event is due a day after it. `Fire` states this for each firing.
- The scheduler's priorities and other event kinds. Every event here is
  `send_daily_reports` with priority 1.
- Whitespace for `strip` is the set of characters Python's `str.isspace`
  accepts, written out. There is no Unicode normalisation.
- The contents of `email_password` and what the server does with them. The
  session oracle decides the login.

## Findings

| source | as written | input that shows it | evidently intended | confidence | as-written member | corrected member |
|---|---|---|---|---|---|---|
| email_sender.py:88 | `MIMEApplication(data, report.rfind('.'))` passes the position of the last '.' as the MIME subtype | `report.pdf` is attached as `application/6` | the file's extension (`pdf`), or the `octet-stream` default when there is no '.' | high, not executed | EmailSending.SubtypeOfReportPdf | EmailSending.ExtensionOfName |

The message model keeps the subtype as written (`ReportAttachment`, and so
`Compose` and `Deliver`). `Extension` is the corrected definition, and
`ExtensionOfName` and `ExtensionSplits` are proved about it.
