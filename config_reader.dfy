/** `ConfigReader`: reads `key = value` lines into the shared parameter
    dictionary, then validates it in a fixed, fail-fast order, clearing the
    whole dictionary on the first failed check. */
module ConfigReading {
  import opened PyStr
  import opened Parameters
  import opened Domain

  /** What the host answers: the current time, `strptime(text, "%Y-%m-%d %H:%M:%S")`
      as a timestamp (`None` when the text does not match the format), and the
      paths for which `os.path.exists` holds. */
  datatype Environment = Environment(now: int, parse: string -> Option<int>, existing: set<string>)

  /** `config.ini` as `open` finds it: absent, failing to open, or its lines. */
  datatype ConfigFile = Missing | Unreadable | Lines(lines: seq<string>)

  /** The four checks of `check_parameters`, each of which can fail. */
  datatype Failure = MissingRecipients | InvalidSchedule | MissingReportFile | UnsupportedDomain

  /** `check_parameters` returns True, returns False, or lets an exception escape. */
  datatype Verdict = Accepted | Rejected(failure: Failure) | Escaped(error: Exception)

  datatype Warning = EmptySubject | EmptyBody

  datatype Checked = Checked(verdict: Verdict, params: Params, warnings: seq<Warning>)

  /** The message `read_config_file` logs: file not found, error while reading,
      or the outcome of validation. */
  datatype ReadOutcome = NotFound | ReadError | Validated(verdict: Verdict)

  datatype ReadResult = ReadResult(outcome: ReadOutcome, params: Params, warnings: seq<Warning>)

  /** One line of the file: skipped, a key and a value, or a line that does not
      unpack into exactly two parts around '='. */
  datatype LineResult = Blank | Entry(key: string, value: string) | Malformed

  /** How one line is read: stripped, skipped when blank or a '#' comment, and
      otherwise split on '=' into exactly two stripped parts. */
  function ParseLine(raw: string): (r: LineResult)
    ensures r.Blank? <==> AllSpace(raw) || (Strip(raw) != [] && Strip(raw)[0] == '#')
    ensures r.Malformed? <==> !r.Blank? && Count(Strip(raw), '=') != 1
    ensures r.Entry? ==> Trimmed(r.key) && Trimmed(r.value) && '=' !in r.key && '=' !in r.value
  {
    var line := Strip(raw);
    StripEmptyIffBlank(raw);
    SplitCount(line, '=');
    if line == [] || line[0] == '#' then Blank
    else
      var parts := Split(line, '=');
      if |parts| != 2 then Malformed
      else
        StripAvoids(parts[0], '=');
        StripAvoids(parts[1], '=');
        Entry(Strip(parts[0]), Strip(parts[1]))
  }

  /** A line written as `key=value` is read back as that key and value. */
  lemma ParseWrittenLine(line: string, key: string, value: string)
    requires line == key + "=" + value
    requires key != [] && key[0] != '#' && Trimmed(key) && Trimmed(value)
    requires '=' !in key && '=' !in value
    ensures ParseLine(line) == Entry(key, value)
  {
    assert Strip(line) == line by {
      assert Trimmed(line);
      StripPadded([], line, []);
      assert [] + line + [] == line;
    }
    assert Split(line, '=') == [key, value] by {
      assert Join([key, value], '=') == line by {
        assert [key, value][1..] == [value];
      }
      SplitJoin([key, value], '=');
    }
    assert Strip(key) == key by {
      StripPadded([], key, []);
      assert [] + key + [] == key;
    }
    assert Strip(value) == value by {
      StripPadded([], value, []);
      assert [] + value + [] == value;
    }
    assert line[0] == key[0];
  }

  /** The part of `key = value` a stripped line keeps: everything up to the value,
      or up to the '=' when the value is empty. */
  function PaddedEntry(key: string, b: string, c: string, value: string): string {
    key + b + "=" + (if value == [] then [] else c + value)
  }

  lemma StripPaddedEntry(a: string, key: string, b: string, c: string, value: string, d: string)
    requires AllSpace(a) && AllSpace(b) && AllSpace(c) && AllSpace(d)
    requires key != [] && Trimmed(key) && Trimmed(value)
    ensures Strip(a + key + b + "=" + c + value + d) == PaddedEntry(key, b, c, value)
  {
    assert !IsSpace('=');
    if value == [] {
      var m, tail := key + b + "=", c + d;
      assert AllSpace(tail) by {
        assert forall k | 0 <= k < |tail| :: tail[k] == if k < |c| then c[k] else d[k - |c|];
      }
      assert Trimmed(m) by {
        assert m[0] == key[0] && m[|m| - 1] == '=';
      }
      assert a + key + b + "=" + c + value + d == a + m + tail;
      StripPadded(a, m, tail);
    } else {
      var m := key + b + "=" + c + value;
      assert Trimmed(m) by {
        assert m[0] == key[0] && m[|m| - 1] == value[|value| - 1];
      }
      assert a + key + b + "=" + c + value + d == a + m + d;
      StripPadded(a, m, d);
    }
  }

  /** A stripped line `left=right` with no other '=' and not a comment reads as
      the stripped halves. */
  lemma ParseSplitLine(raw: string, left: string, right: string)
    requires Strip(raw) == left + "=" + right
    requires '=' !in left && '=' !in right && left != [] && left[0] != '#'
    ensures ParseLine(raw) == Entry(Strip(left), Strip(right))
  {
    var m := left + "=" + right;
    assert Split(m, '=') == [left, right] by {
      assert Join([left, right], '=') == m by {
        assert [left, right][1..] == [right];
      }
      SplitJoin([left, right], '=');
    }
    assert m[0] == left[0];
  }

  /** The two halves of a padded `key = value` split at its '=': neither holds
      another '=', and they strip to the key and the value. */
  lemma PaddedHalves(key: string, b: string, c: string, value: string)
    requires AllSpace(b) && AllSpace(c) && key != [] && Trimmed(key) && Trimmed(value)
    requires '=' !in key && '=' !in value
    ensures var left, right := key + b, if value == [] then [] else c + value;
      && '=' !in left && '=' !in right && Strip(left) == key && Strip(right) == value
  {
    var left, right := key + b, if value == [] then [] else c + value;
    assert !IsSpace('=');
    assert '=' !in left by {
      assert forall k | 0 <= k < |left| :: left[k] == if k < |key| then key[k] else b[k - |key|];
    }
    assert '=' !in right by {
      assert forall k | 0 <= k < |right| :: right[k] == if k < |c| then c[k] else value[k - |c|];
    }
    StripPadded([], key, b);
    assert [] + key + b == left;
    if value == [] {
      StripPadded([], [], []);
    } else {
      StripPadded(c, value, []);
      assert c + value + [] == right;
    }
  }

  /** Whitespace around the line, the key and the value does not matter: a line
      written `key = value`, padded anyhow, reads as that key and value. */
  lemma ParsePaddedLine(a: string, key: string, b: string, c: string, value: string, d: string)
    requires AllSpace(a) && AllSpace(b) && AllSpace(c) && AllSpace(d)
    requires key != [] && key[0] != '#' && Trimmed(key) && Trimmed(value)
    requires '=' !in key && '=' !in value
    ensures ParseLine(a + key + b + "=" + c + value + d) == Entry(key, value)
  {
    StripPaddedEntry(a, key, b, c, value, d);
    PaddedHalves(key, b, c, value);
    ParseSplitLine(a + key + b + "=" + c + value + d, key + b, if value == [] then [] else c + value);
  }

  /** All values are raw strings, as they are straight after reading. */
  predicate AllStrings(m: Params) {
    forall k | k in m :: m[k].Str?
  }

  /** The dictionary after the parsed lines have been stored one by one into `m`;
      `complete` is false when a malformed line stopped the reading, keeping what
      was stored before it. */
  datatype Loaded = Loaded(params: Params, complete: bool)

  function Store(m: Params, entries: seq<LineResult>): (r: Loaded)
    ensures r.complete <==> Malformed !in entries
    ensures m.Keys <= r.params.Keys
    decreases |entries|
  {
    if entries == [] then Loaded(m, true)
    else
      assert entries == [entries[0]] + entries[1..];
      match entries[0]
      case Blank => Store(m, entries[1..])
      case Entry(k, v) => Store(m[k := Str(v)], entries[1..])
      case Malformed => Loaded(m, false)
  }

  /** The keys the lines name. */
  function EntryKeys(entries: seq<LineResult>): set<string> {
    set j | 0 <= j < |entries| && entries[j].Entry? :: entries[j].key
  }

  /** Reading adds no key but those the lines name. */
  lemma {:induction false} StoreAddsOnlyReadKeys(m: Params, entries: seq<LineResult>)
    ensures Store(m, entries).params.Keys <= m.Keys + EntryKeys(entries)
    decreases |entries|
  {
    if entries != [] {
      StoreAddsOnlyReadKeys(if entries[0].Entry? then m[entries[0].key := Str(entries[0].value)] else m, entries[1..]);
      forall k | k in EntryKeys(entries[1..])
        ensures k in EntryKeys(entries)
      {
        var j :| 0 <= j < |entries[1..]| && entries[1..][j].Entry? && entries[1..][j].key == k;
        assert entries[j + 1] == entries[1..][j];
      }
    }
  }

  /** Each line of the file, parsed. */
  function ParseLines(lines: seq<string>): (r: seq<LineResult>)
    ensures |r| == |lines| && forall k | 0 <= k < |lines| :: r[k] == ParseLine(lines[k])
  {
    seq(|lines|, k requires 0 <= k < |lines| => ParseLine(lines[k]))
  }

  /** Reading the file's lines into `m`. */
  function Load(m: Params, lines: seq<string>): Loaded
  {
    Store(m, ParseLines(lines))
  }

  /** Reading only ever stores strings. */
  lemma {:induction false} StoreKeepsStrings(m: Params, entries: seq<LineResult>)
    requires AllStrings(m)
    ensures AllStrings(Store(m, entries).params)
    decreases |entries|
  {
    if entries != [] {
      match entries[0]
      case Blank => StoreKeepsStrings(m, entries[1..]);
      case Entry(k, v) =>
        assert AllStrings(m[k := Str(v)]);
        StoreKeepsStrings(m[k := Str(v)], entries[1..]);
      case Malformed =>
    }
  }

  /** Storing a + b is storing a and then, if that completed, storing b. */
  lemma {:induction false} StoreAppend(m: Params, a: seq<LineResult>, b: seq<LineResult>)
    ensures Store(m, a + b) == if Store(m, a).complete then Store(Store(m, a).params, b) else Store(m, a)
    decreases |a|
  {
    if a != [] {
      assert (a + b)[0] == a[0] && (a + b)[1..] == a[1..] + b;
      match a[0]
      case Blank => StoreAppend(m, a[1..], b);
      case Entry(k, v) => StoreAppend(m[k := Str(v)], a[1..], b);
      case Malformed =>
    } else {
      assert a + b == b;
    }
  }

  /** Lines that never name `key` leave its value alone, whether or not they read to the end. */
  lemma {:induction false} StoreKeeps(m: Params, entries: seq<LineResult>, key: string)
    requires key in m
    requires forall j | 0 <= j < |entries| :: !(entries[j].Entry? && entries[j].key == key)
    ensures key in Store(m, entries).params && Store(m, entries).params[key] == m[key]
    decreases |entries|
  {
    if entries != [] {
      match entries[0]
      case Blank => StoreKeeps(m, entries[1..], key);
      case Entry(k, v) => StoreKeeps(m[k := Str(v)], entries[1..], key);
      case Malformed =>
    }
  }

  /** A later line for the same key overwrites an earlier one: the value kept is
      the one on the last line that names the key. */
  lemma LaterDuplicateWins(m: Params, before: seq<LineResult>, key: string, value: string, after: seq<LineResult>)
    requires Store(m, before).complete
    requires forall j | 0 <= j < |after| :: !(after[j].Entry? && after[j].key == key)
    ensures key in Store(m, before + [Entry(key, value)] + after).params
    ensures Store(m, before + [Entry(key, value)] + after).params[key] == Str(value)
  {
    var rest := [Entry(key, value)] + after;
    StoreAppend(m, before, rest);
    assert before + [Entry(key, value)] + after == before + rest;
    assert rest[0] == Entry(key, value) && rest[1..] == after;
    StoreKeeps(Store(m, before).params[key := Str(value)], after, key);
  }

  /** A line that does not unpack into key and value stops the reading: nothing
      after it is read, and everything read before it stays in the dictionary. */
  lemma MalformedLineStops(m: Params, before: seq<LineResult>, after: seq<LineResult>)
    requires Store(m, before).complete
    ensures Store(m, before + [Malformed] + after) == Loaded(Store(m, before).params, false)
  {
    var rest := [Malformed] + after;
    StoreAppend(m, before, rest);
    assert before + [Malformed] + after == before + rest;
    assert rest[0] == Malformed;
  }

  /** `value.replace(" ", "").split(',')`: the list form of `clients_email` and
      `report_file_path`; never empty, and no item holds a space or a comma. */
  function CommaList(s: string): (r: seq<string>)
    ensures |r| >= 1
    ensures forall k | 0 <= k < |r| :: ' ' !in r[k] && ',' !in r[k]
  {
    var r := Split(RemoveSpaces(s), ',');
    JoinSplit(RemoveSpaces(s), ',');
    JoinAvoids(r, ',', ' ');
    r
  }

  /** The items, joined by commas, are the original text without its spaces. */
  lemma CommaListJoin(s: string)
    ensures Join(CommaList(s), ',') == RemoveSpaces(s)
  {
    JoinSplit(RemoveSpaces(s), ',');
  }

  /** `validate_datetime_format`: the text parses with the format and is not earlier
      than now (a time equal to now is accepted). */
  function ValidateDatetimeFormat(s: string, env: Environment): (ok: bool)
    ensures ok <==> env.parse(s).Some? && env.now <= env.parse(s).value
  {
    match env.parse(s)
    case None => false
    case Some(t) => !(t < env.now)
  }

  /** The four checks, in the order they run. */
  predicate RecipientsOk(m: Params) {
    Truthy(Get(m, CLIENTS)) && m[CLIENTS].Str?
  }

  predicate ScheduleOk(m: Params, env: Environment) {
    SCHEDULE in m && m[SCHEDULE].Str? && ValidateDatetimeFormat(m[SCHEDULE].s, env)
  }

  predicate ReportsExist(paths: seq<string>, env: Environment) {
    forall k | 0 <= k < |paths| :: paths[k] in env.existing
  }

  predicate ReportsOk(m: Params, env: Environment) {
    Truthy(Get(m, REPORTS)) && m[REPORTS].Str? && ReportsExist(CommaList(m[REPORTS].s), env)
  }

  predicate DomainOk(m: Params) {
    USERNAME in m && m[USERNAME].Str? && Resolve(m[USERNAME].s).Some?
  }

  /** The warnings logged for an empty subject or body. */
  function Warnings(m: Params): (w: seq<Warning>)
    ensures EmptySubject in w <==> Get(m, SUBJECT) == Some(Str(""))
    ensures EmptyBody in w <==> Get(m, BODY) == Some(Str(""))
  {
    (if Get(m, SUBJECT) == Some(Str("")) then [EmptySubject] else [])
    + (if Get(m, BODY) == Some(Str("")) then [EmptyBody] else [])
  }

  /** `check_parameters`: recipients, schedule, report paths and sender domain are
      checked in that order; the first failing check clears the whole dictionary,
      and a missing or non-string value where a string method is called raises. */
  function Check(m: Params, env: Environment): (r: Checked)
    // fail fast, in order
    ensures r.verdict == Rejected(MissingRecipients) <==> !Truthy(Get(m, CLIENTS))
    ensures r.verdict == Rejected(InvalidSchedule) <==>
      RecipientsOk(m) && SCHEDULE in m && m[SCHEDULE].Str? && !ScheduleOk(m, env)
    ensures r.verdict == Rejected(MissingReportFile) <==>
      RecipientsOk(m) && ScheduleOk(m, env) && !ReportsOk(m, env) && !(Truthy(Get(m, REPORTS)) && !m[REPORTS].Str?)
    ensures r.verdict == Rejected(UnsupportedDomain) <==>
      RecipientsOk(m) && ScheduleOk(m, env) && ReportsOk(m, env)
      && USERNAME in m && m[USERNAME].Str? && Resolve(m[USERNAME].s).None?
    ensures r.verdict.Accepted? <==> RecipientsOk(m) && ScheduleOk(m, env) && ReportsOk(m, env) && DomainOk(m)
    // all or nothing
    ensures r.verdict.Rejected? ==> r.params == map[] && r.warnings == []
    // what an accepted dictionary holds
    ensures r.verdict.Accepted? ==>
      var m2 := m[CLIENTS := List(CommaList(m[CLIENTS].s))][REPORTS := List(CommaList(m[REPORTS].s))];
      && r.params == WithServer(m2, Resolve(m[USERNAME].s).value)
      && r.warnings == Warnings(r.params)
  {
    var recipients := Get(m, CLIENTS);
    if !Truthy(recipients) then Checked(Rejected(MissingRecipients), map[], [])
    else if !recipients.value.Str? then Checked(Escaped(AttributeError(CLIENTS)), m, [])
    else
      var m1 := m[CLIENTS := List(CommaList(recipients.value.s))];
      var schedule := Get(m1, SCHEDULE);
      if schedule.None? || !schedule.value.Str? then Checked(Escaped(TypeError(SCHEDULE)), m1, [])
      else if !ValidateDatetimeFormat(schedule.value.s, env) then Checked(Rejected(InvalidSchedule), map[], [])
      else
        var reports := Get(m1, REPORTS);
        if !Truthy(reports) then Checked(Rejected(MissingReportFile), map[], [])
        else if !reports.value.Str? then Checked(Escaped(AttributeError(REPORTS)), m1, [])
        else
          var paths := CommaList(reports.value.s);
          var m2 := m1[REPORTS := List(paths)];
          if !ReportsExist(paths, env) then Checked(Rejected(MissingReportFile), map[], [])
          else
            var user := Get(m2, USERNAME);
            if user.None? || !user.value.Str? then Checked(Escaped(AttributeError(USERNAME)), m2, [])
            else match Resolve(user.value.s)
              case None => Checked(Rejected(UnsupportedDomain), map[], [])
              case Some(server) =>
                var m3 := WithServer(m2, server);
                Checked(Accepted, m3, Warnings(m3))
  }

  /** On success every report path in the stored list exists, and both lists are
      non-empty with no spaces, commas being the separators of the original text. */
  lemma AcceptedLists(m: Params, env: Environment)
    requires Check(m, env).verdict.Accepted?
    ensures var p := Check(m, env).params;
      && CLIENTS in p && p[CLIENTS].List? && |p[CLIENTS].items| >= 1
      && Join(p[CLIENTS].items, ',') == RemoveSpaces(m[CLIENTS].s)
      && REPORTS in p && p[REPORTS].List? && |p[REPORTS].items| >= 1
      && Join(p[REPORTS].items, ',') == RemoveSpaces(m[REPORTS].s)
      && (forall k | 0 <= k < |p[REPORTS].items| :: p[REPORTS].items[k] in env.existing)
      && SCHEDULE in p && p[SCHEDULE] == m[SCHEDULE]
      && p[USERNAME] == m[USERNAME]
  {
    CommaListJoin(m[CLIENTS].s);
    CommaListJoin(m[REPORTS].s);
  }

  /** An empty subject or body only adds a warning: the verdict and the stored
      dictionary are those for any other subject and body. */
  lemma EmptySubjectOrBodyOnlyWarns(m: Params, env: Environment, subject: string, body: string)
    ensures var m' := m[SUBJECT := Str(subject)][BODY := Str(body)];
      && Check(m', env).verdict == Check(m[SUBJECT := Str("x")][BODY := Str("x")], env).verdict
      && (Check(m', env).verdict.Accepted? ==>
            (EmptySubject in Check(m', env).warnings <==> subject == "")
            && (EmptyBody in Check(m', env).warnings <==> body == ""))
  {
    var m' := m[SUBJECT := Str(subject)][BODY := Str(body)];
    var x := m[SUBJECT := Str("x")][BODY := Str("x")];
    assert Get(m', CLIENTS) == Get(x, CLIENTS) && Get(m', SCHEDULE) == Get(x, SCHEDULE);
    assert Get(m', REPORTS) == Get(x, REPORTS) && Get(m', USERNAME) == Get(x, USERNAME);
  }

  /** `read_config_file`: reading stops with a logged error (and no validation) when
      the file is missing, cannot be opened or has a malformed line; otherwise the
      dictionary is validated. */
  function Read(m: Params, file: ConfigFile, env: Environment): (r: ReadResult)
    ensures file.Missing? ==> r == ReadResult(NotFound, m, [])
    ensures file.Unreadable? ==> r == ReadResult(ReadError, m, [])
    ensures file.Lines? ==> (r.outcome.ReadError? <==> Malformed in ParseLines(file.lines))
    ensures r.outcome == Validated(Accepted) ==> DomainOk(Load(m, file.lines).params)
    ensures r.outcome.Validated? && r.outcome.verdict.Rejected? ==> r.params == map[]
    // a read error keeps what was read; a complete read is validated
    ensures file.Lines? && r.outcome.ReadError? ==> r.params == Load(m, file.lines).params
    ensures file.Lines? && Malformed !in ParseLines(file.lines) ==>
      var c := Check(Load(m, file.lines).params, env);
      r == ReadResult(Validated(c.verdict), c.params, c.warnings)
  {
    match file
    case Missing => ReadResult(NotFound, m, [])
    case Unreadable => ReadResult(ReadError, m, [])
    case Lines(lines) =>
      var loaded := Load(m, lines);
      if !loaded.complete then ReadResult(ReadError, loaded.params, [])
      else
        var c := Check(loaded.params, env);
        ReadResult(Validated(c.verdict), c.params, c.warnings)
  }

  /** A malformed line does not clear what was read before it: with `key=value`
      followed by a line holding no '=', validation never runs and the dictionary
      is left holding the raw string read from the first line. */
  lemma MalformedLineKeepsEarlierKeys(key: string, value: string, bad: string, env: Environment)
    requires key != [] && key[0] != '#' && Trimmed(key) && Trimmed(value)
    requires '=' !in key && '=' !in value
    requires bad != [] && bad[0] != '#' && Trimmed(bad) && '=' !in bad
    ensures Read(map[], Lines([key + "=" + value, bad]), env) == ReadResult(ReadError, map[key := Str(value)], [])
  {
    var first := key + "=" + value;
    ParseWrittenLine(first, key, value);
    assert ParseLine(bad) == Malformed by {
      StripPadded([], bad, []);
      assert [] + bad + [] == bad;
      SplitNoSeparator(bad, '=');
    }
    var parsed := ParseLines([first, bad]);
    assert parsed == [Entry(key, value)] + [Malformed] + [];
    assert Store(map[], [Entry(key, value)]) == Loaded(map[key := Str(value)], true) by {
      assert [Entry(key, value)][1..] == [];
    }
    MalformedLineStops(map[], [Entry(key, value)], []);
  }

  /** The loop over the report paths in `check_parameters`: `os.path.exists` for each
      in turn, stopping at the first that does not exist. */
  method ReportsFound(paths: seq<string>, env: Environment) returns (found: bool)
    ensures found <==> ReportsExist(paths, env)
  {
    for i := 0 to |paths|
      invariant forall k | 0 <= k < i :: paths[k] in env.existing
    {
      if paths[i] !in env.existing {
        return false;
      }
    }
    return true;
  }

  /** The mailer's `ConfigReader`: one dictionary object, shared with the sender. */
  class ConfigReader {
    const parameters: Dict

    constructor ()
      ensures fresh(parameters) && parameters.items == map[]
    {
      parameters := new Dict();
    }

    /** `read_config_file`, with the file's contents given rather than opened. */
    method ReadConfigFile(file: ConfigFile, env: Environment) returns (outcome: ReadOutcome, warnings: seq<Warning>)
      modifies parameters
      ensures ReadResult(outcome, parameters.items, warnings) == Read(old(parameters.items), file, env)
    {
      match file
      case Missing =>
        outcome, warnings := NotFound, [];
      case Unreadable =>
        outcome, warnings := ReadError, [];
      case Lines(lines) =>
        var i := 0;
        while i < |lines|
          invariant 0 <= i <= |lines|
          invariant Load(old(parameters.items), lines) == Store(parameters.items, ParseLines(lines)[i..])
        {
          assert ParseLines(lines)[i..][1..] == ParseLines(lines)[i + 1..];
          var line := Strip(lines[i]);
          if line != [] && line[0] != '#' {
            var parts := Split(line, '=');
            if |parts| != 2 {
              return ReadError, [];
            }
            parameters.items := parameters.items[Strip(parts[0]) := Str(Strip(parts[1]))];
          }
          i := i + 1;
        }
        var verdict;
        verdict, warnings := CheckParameters(env);
        outcome := Validated(verdict);
    }

    /** `check_parameters`. */
    method CheckParameters(env: Environment) returns (verdict: Verdict, warnings: seq<Warning>)
      modifies parameters
      ensures Checked(verdict, parameters.items, warnings) == Check(old(parameters.items), env)
    {
      warnings := [];
      var recipients := Get(parameters.items, CLIENTS);
      if !Truthy(recipients) {
        parameters.items := map[];
        return Rejected(MissingRecipients), [];
      }
      if !recipients.value.Str? {
        return Escaped(AttributeError(CLIENTS)), [];
      }
      parameters.items := parameters.items[CLIENTS := List(CommaList(recipients.value.s))];

      var schedule := Get(parameters.items, SCHEDULE);
      if schedule.None? || !schedule.value.Str? {
        return Escaped(TypeError(SCHEDULE)), [];
      }
      if !ValidateDatetimeFormat(schedule.value.s, env) {
        parameters.items := map[];
        return Rejected(InvalidSchedule), [];
      }

      var reports := Get(parameters.items, REPORTS);
      if Truthy(reports) {
        if !reports.value.Str? {
          return Escaped(AttributeError(REPORTS)), [];
        }
        var paths := CommaList(reports.value.s);
        parameters.items := parameters.items[REPORTS := List(paths)];
        var found := ReportsFound(paths, env);
        if !found {
          parameters.items := map[];
          return Rejected(MissingReportFile), [];
        }
      } else {
        parameters.items := map[];
        return Rejected(MissingReportFile), [];
      }

      var user := Get(parameters.items, USERNAME);
      if user.None? || !user.value.Str? {
        return Escaped(AttributeError(USERNAME)), [];
      }
      var ok := AddServerConfiguration(parameters, user.value.s);
      if !ok {
        parameters.items := map[];
        return Rejected(UnsupportedDomain), [];
      }

      if Get(parameters.items, SUBJECT) == Some(Str("")) {
        warnings := warnings + [EmptySubject];
      }
      if Get(parameters.items, BODY) == Some(Str("")) {
        warnings := warnings + [EmptyBody];
      }
      verdict := Accepted;
    }
  }
}
