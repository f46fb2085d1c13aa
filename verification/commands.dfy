/**
 The helper-script boundary: the commands the view runs, the shape of their
 results, the `ERROR_CODE:` convention on stderr, the per-operation error
 tables with their messages, and the stdout success predicates.
 */
module Commands {
  import opened Text
  import opened JsValues

  /** What `callExec` resolves to: exit code and captured output. */
  datatype ExecResult = ExecResult(code: int, stdout: string, stderr: string)

  /** The external commands the view can issue. */
  datatype Command =
    | DetectArch                                            // nping-agent-call arch
    | Download(arch: JsValue, target: string)               // nping-agent-call download <mapped> <path>
    | RegisterNode(key: string, name: string, country: string) // nping-agent-call register <key> <name> <country>
    | ServiceStatus                                         // /etc/init.d/nping-agent status
    | ServiceStop                                           // /etc/init.d/nping-agent stop
    | StartAgent(agentId: string)                           // nping-agent-call start <agent_id>

  /**
   The command runner: the result each command resolves to, or `None` when
   the call itself is rejected (the promise's `catch` branch).
   */
  type Runner = Command -> Option<ExecResult>

  /** An operation's outcome together with every command it issued, in order. */
  datatype Run<T> = Run(outcome: T, issued: seq<Command>)

  // ---------------------------------------------------------------------------
  // Success predicates
  // ---------------------------------------------------------------------------

  /** Download and start succeed only on exit code 0 AND the `SUCCESS` marker on stdout. */
  function ReportsSuccess(res: ExecResult): (ok: bool)
    ensures ok <==> res.code == 0 && Occurs(res.stdout, "SUCCESS")
  {
    res.code == 0 && Contains(res.stdout, "SUCCESS")
  }

  /** The init script's status call means "running" only on exit code 0 AND `running` on stdout. */
  function ReportsRunning(res: ExecResult): (running: bool)
    ensures running <==> res.code == 0 && Occurs(res.stdout, "running")
  {
    res.code == 0 && Contains(res.stdout, "running")
  }

  /** The status probe made while loading the page: a rejected call counts as not running. */
  function ProbeRunning(probe: Option<ExecResult>): (running: bool)
    ensures running <==> probe.Some? && probe.value.code == 0 && Occurs(probe.value.stdout, "running")
  {
    probe.Some? && ReportsRunning(probe.value)
  }

  // ---------------------------------------------------------------------------
  // The ERROR_CODE token
  // ---------------------------------------------------------------------------

  const Marker: string := "ERROR_CODE:"

  /** Only the last character of the marker is a colon, so the marker cannot overlap itself. */
  lemma MarkerColonOnlyAtEnd()
    ensures |Marker| == 11 && Marker[10] == ':'
    ensures forall j :: 0 <= j < 10 ==> Marker[j] != ':'
  {
  }

  /**
   `stderr.split('ERROR_CODE:')[1].trim()`, guarded by
   `stderr.indexOf('ERROR_CODE:') !== -1`: the trimmed text after the first
   marker, up to the next marker or the end.
   */
  function ErrorToken(stderr: string): (t: Option<string>)
    ensures t.None? <==> !Occurs(stderr, Marker)
    ensures t.Some? ==> IsTrimmed(t.value)
  {
    match IndexOf(stderr, Marker)
    case None => None
    case Some(i) =>
      var rest := stderr[i + |Marker|..];
      var segment := match IndexOf(rest, Marker)
        case None => rest
        case Some(j) => rest[..j];
      Some(Trim(segment))
  }

  /** A marker appended to marker-free text is the first marker of the result. */
  lemma FirstMarkerAfter(p: string, rest: string)
    requires !Occurs(p, Marker)
    ensures IndexOf(p + Marker + rest, Marker) == Some(|p|)
  {
    var x := p + Marker + rest;
    MarkerColonOnlyAtEnd();
    assert x[|p|..|p| + |Marker|] == Marker;
    assert MatchAt(x, Marker, |p|);
    forall k: nat | k < |p| ensures !MatchAt(x, Marker, k) {
      if k + |Marker| <= |p| {
        assert x[k..k + |Marker|] == p[k..k + |Marker|];
        assert !MatchAt(p, Marker, k);
      } else {
        assert x[k + 10] == Marker[k + 10 - |p|];
        assert x[k..k + |Marker|][10] == x[k + 10];
      }
    }
  }

  /** Every occurrence of the marker brings a colon with it. */
  lemma MarkerNeedsColon(s: string)
    ensures Occurs(s, Marker) ==> ':' in s
  {
    if Occurs(s, Marker) {
      var k: nat :| MatchAt(s, Marker, k);
      MarkerColonOnlyAtEnd();
      assert s[k..k + |Marker|][10] == s[k + 10];
    }
  }

  /** The token after the only marker is the trimmed remainder. */
  lemma {:induction false} ErrorTokenAfterMarker(p: string, t: string)
    requires !Occurs(p, Marker) && !Occurs(t, Marker)
    ensures ErrorToken(p + Marker + t) == Some(Trim(t))
  {
    var x := p + Marker + t;
    FirstMarkerAfter(p, t);
    assert x[|p| + |Marker|..] == t;
  }

  /** The token is cut at the second marker: later markers and text are ignored. */
  lemma {:induction false} ErrorTokenBetweenMarkers(p: string, t: string, q: string)
    requires !Occurs(p, Marker) && !Occurs(t, Marker)
    ensures ErrorToken(p + Marker + t + Marker + q) == Some(Trim(t))
  {
    var x := p + Marker + t + Marker + q;
    assert x == p + Marker + (t + Marker + q);
    FirstMarkerAfter(p, t + Marker + q);
    assert x[|p| + |Marker|..] == t + Marker + q;
    FirstMarkerAfter(t, q);
    assert (t + Marker + q)[..|t|] == t;
  }

  // ---------------------------------------------------------------------------
  // Error taxonomy and the per-operation tables
  // ---------------------------------------------------------------------------

  /** The three operations whose stderr is classified. */
  datatype Operation = InstallOp | RegisterOp | StartOp

  /** The failure kinds the view distinguishes. `NoErrorCode`: stderr had no marker. */
  datatype Failure =
    | NoErrorCode
    | ParameterError
    | DownloadFailed
    | PermissionError
    | MoveFailed
    | RegistrationFailed
    | FileReadError
    | ConfigWriteError
    | ServiceStartError
    | Unrecognised(code: string)

  /** The token a helper script prints for each failure kind. */
  function CodeName(f: Failure): string {
    match f
    case NoErrorCode => ""
    case ParameterError => "PARAMETER_ERROR"
    case DownloadFailed => "DOWNLOAD_FAILED"
    case PermissionError => "PERMISSION_ERROR"
    case MoveFailed => "MOVE_FAILED"
    case RegistrationFailed => "REGISTRATION_FAILED"
    case FileReadError => "FILE_READ_ERROR"
    case ConfigWriteError => "CONFIG_WRITE_ERROR"
    case ServiceStartError => "SERVICE_START_ERROR"
    case Unrecognised(c) => c
  }

  /** The kinds that have a `case` in the operation's `switch`. */
  predicate Recognises(op: Operation, f: Failure) {
    match op
    case InstallOp => f.ParameterError? || f.DownloadFailed? || f.PermissionError? || f.MoveFailed?
    case RegisterOp => f.ParameterError? || f.RegistrationFailed? || f.FileReadError?
    case StartOp => f.ParameterError? || f.ConfigWriteError? || f.ServiceStartError?
  }

  /** The `switch (errorCode)` of each operation, as a lookup table. */
  function LookupCode(op: Operation, code: string): (r: Option<Failure>)
    ensures r.Some? ==> Recognises(op, r.value) && CodeName(r.value) == code
    ensures forall f :: Recognises(op, f) && CodeName(f) == code ==> r == Some(f)
  {
    if code == "PARAMETER_ERROR" then Some(ParameterError)
    else match op
      case InstallOp =>
        if code == "DOWNLOAD_FAILED" then Some(DownloadFailed)
        else if code == "PERMISSION_ERROR" then Some(PermissionError)
        else if code == "MOVE_FAILED" then Some(MoveFailed)
        else None
      case RegisterOp =>
        if code == "REGISTRATION_FAILED" then Some(RegistrationFailed)
        else if code == "FILE_READ_ERROR" then Some(FileReadError)
        else None
      case StartOp =>
        if code == "CONFIG_WRITE_ERROR" then Some(ConfigWriteError)
        else if code == "SERVICE_START_ERROR" then Some(ServiceStartError)
        else None
  }

  /** The failures `Classify` can produce for an operation. */
  predicate Classifiable(op: Operation, f: Failure) {
    f.NoErrorCode? || Recognises(op, f) || (f.Unrecognised? && LookupCode(op, f.code).None?)
  }

  /** Classify a failed command's stderr through the operation's table. */
  function Classify(op: Operation, stderr: string): (f: Failure)
    ensures Classifiable(op, f)
    ensures f.NoErrorCode? <==> !Occurs(stderr, Marker)
    ensures !f.NoErrorCode? ==> ErrorToken(stderr) == Some(CodeName(f))
  {
    var token := ErrorToken(stderr);
    assert token.None? <==> !Occurs(stderr, Marker);
    if token.None? then NoErrorCode
    else
      var known := LookupCode(op, token.value);
      if known.Some? then known.value else Unrecognised(token.value)
  }

  /**
   Round trip: a script that prints a classifiable failure's token after the
   marker, with any blank padding and marker-free text before it, is
   classified as exactly that failure.
   */
  lemma ClassifyRoundTrip(op: Operation, f: Failure, p: string, w1: string, w2: string)
    requires Classifiable(op, f) && !f.NoErrorCode?
    requires IsTrimmed(CodeName(f)) && ':' !in CodeName(f)
    requires !Occurs(p, Marker) && IsBlank(w1) && IsBlank(w2)
    ensures Classify(op, p + Marker + w1 + CodeName(f) + w2) == f
  {
    var code := CodeName(f);
    ErrorTokenOfPaddedCode(p, w1, code, w2);
    if Recognises(op, f) {
      assert LookupCode(op, code) == Some(f);
    } else {
      assert LookupCode(op, code).None?;
    }
  }

  /** A colon-free, trimmed code after the first marker, padded with blanks, is read back exactly. */
  lemma ErrorTokenOfPaddedCode(p: string, w1: string, code: string, w2: string)
    requires IsTrimmed(code) && ':' !in code
    requires !Occurs(p, Marker) && IsBlank(w1) && IsBlank(w2)
    ensures ErrorToken(p + Marker + w1 + code + w2) == Some(code)
  {
    var t := w1 + code + w2;
    assert ':' !in t by {
      assert ':' !in w1 && ':' !in w2;
    }
    MarkerNeedsColon(t);
    ErrorTokenAfterMarker(p, t);
    TrimOfPadded(w1, code, w2);
    RegroupTail(p, Marker, w1, code, w2);
  }

  /** Concatenation regrouped so that the last three pieces form one string. */
  lemma RegroupTail(a: string, b: string, c: string, d: string, e: string)
    ensures a + b + c + d + e == a + b + (c + d + e)
  {
  }

  // ---------------------------------------------------------------------------
  // Messages
  // ---------------------------------------------------------------------------

  /** The notification text each operation shows for a failure (untranslated). */
  function Message(op: Operation, f: Failure): (m: string)
    ensures f.Unrecognised? ==> m == DefaultPrefix(op) + f.code
  {
    match op
    case InstallOp =>
      (match f
       case NoErrorCode => "Download or installation failed"
       case ParameterError => "Parameter error: Invalid architecture or path"
       case DownloadFailed => "Download failed: Cannot retrieve node program"
       case PermissionError => "Permission error: Cannot set execution permission"
       case MoveFailed => "Installation error: Cannot move file to system directory"
       case _ => DefaultPrefix(op) + CodeName(f))
    case RegisterOp =>
      (match f
       case NoErrorCode => "Registration request failed"
       case ParameterError => "Parameter error: Please check registration key and node name"
       case RegistrationFailed => "Registration failed: Server refused request"
       case FileReadError => "Registration failed: Cannot read response data"
       case _ => DefaultPrefix(op) + CodeName(f))
    case StartOp =>
      (match f
       case NoErrorCode => "Service start failed"
       case ParameterError => "Parameter error: Invalid Agent ID"
       case ConfigWriteError => "Configuration write failed: Cannot create configuration file"
       case ServiceStartError => "Service start failed: Cannot start service"
       case _ => DefaultPrefix(op) + CodeName(f))
  }

  /** The text an operation prefixes to a token its table does not know. */
  function DefaultPrefix(op: Operation): string {
    match op
    case InstallOp => "Download installation failed: "
    case RegisterOp => "Registration failed: "
    case StartOp => "Service start failed: "
  }

  /**
   Within one operation, the texts for "no error code" and for the kinds the
   table recognises are pairwise distinct, so each tells the user which
   failure happened.
   */
  lemma KnownMessagesDistinct(op: Operation, f: Failure, g: Failure)
    requires Classifiable(op, f) && Classifiable(op, g) && !f.Unrecognised? && !g.Unrecognised?
    requires f != g
    ensures Message(op, f) != Message(op, g)
  {
    MessageLength(op, f);
    MessageLength(op, g);
    if MessageLengthOf(op, f) == MessageLengthOf(op, g) {
      assert op == InstallOp && (f.ParameterError? || f.DownloadFailed?) && (g.ParameterError? || g.DownloadFailed?);
      InstallEqualLengthTextsDiffer();
    }
  }

  /** The two install texts of equal length still differ. */
  lemma InstallEqualLengthTextsDiffer()
    ensures Message(InstallOp, ParameterError) != Message(InstallOp, DownloadFailed)
  {
    assert Message(InstallOp, ParameterError) == "Parameter error: Invalid architecture or path";
    assert Message(InstallOp, DownloadFailed) == "Download failed: Cannot retrieve node program";
  }

  /** The lengths of the fixed texts; within an operation only two install texts share one. */
  lemma MessageLength(op: Operation, f: Failure)
    requires !f.Unrecognised? && Classifiable(op, f)
    ensures |Message(op, f)| == MessageLengthOf(op, f)
  {
    match f
    case NoErrorCode =>
    case ParameterError =>
    case DownloadFailed =>
    case PermissionError =>
    case MoveFailed =>
    case RegistrationFailed =>
    case FileReadError =>
    case ConfigWriteError =>
    case ServiceStartError =>
  }

  function MessageLengthOf(op: Operation, f: Failure): nat {
    match op
    case InstallOp =>
      (match f
       case NoErrorCode => 31
       case ParameterError => 45
       case DownloadFailed => 45
       case PermissionError => 49
       case _ => 56)
    case RegisterOp =>
      (match f
       case NoErrorCode => 27
       case ParameterError => 60
       case RegistrationFailed => 43
       case _ => 46)
    case StartOp =>
      (match f
       case NoErrorCode => 20
       case ParameterError => 33
       case ConfigWriteError => 60
       case _ => 42)
  }

  /**
   A token outside the table is not lost: the notification is the operation's
   default text followed by the token exactly as extracted from stderr.
   */
  lemma DefaultMessageCarriesToken(op: Operation, stderr: string)
    requires Classify(op, stderr).Unrecognised?
    ensures var m := Message(op, Classify(op, stderr));
      && m == DefaultPrefix(op) + ErrorToken(stderr).value
      && m[|DefaultPrefix(op)|..] == ErrorToken(stderr).value
  {
    var m := Message(op, Classify(op, stderr));
    assert m == DefaultPrefix(op) + ErrorToken(stderr).value;
  }

  /**
   For registration the default text can coincide with a recognised one: an
   unrecognised token that happens to read "Server refused request" is shown
   exactly like `REGISTRATION_FAILED`.
   */
  lemma RegisterMessageAmbiguous()
    ensures Classifiable(RegisterOp, Unrecognised("Server refused request"))
    ensures Message(RegisterOp, Unrecognised("Server refused request")) == Message(RegisterOp, RegistrationFailed)
  {
  }

  /** The same holds for starting the service and `SERVICE_START_ERROR`. */
  lemma StartMessageAmbiguous()
    ensures Classifiable(StartOp, Unrecognised("Cannot start service"))
    ensures Message(StartOp, Unrecognised("Cannot start service")) == Message(StartOp, ServiceStartError)
  {
  }
}
