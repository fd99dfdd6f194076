/** `fr.dudie.logging.jcl.LoggerContextListener`: reads the web application's
    init parameters, builds the mail handler, and announces its installation
    and removal with a record the handler turns into a registration notice. */
module ContextListener {
  import opened Wrappers
  import opened JavaStrings
  import opened Logging
  import opened MailHandler

  /** The init-parameter keys. The level key is `min-level`. */
  const APPLICATION: string := "application-name"
  const SENDER: string := "sender"
  const RECIPIENT: string := "recipient"
  const MIN_LOG_LEVEL: string := "min-level"

  const REGISTERED: string := "MailHandler registered"
  const UNREGISTERED: string := "MailHandler unregistered"

  /** Library behaviour the listener relies on without this model defining it:
      whether `new InternetAddress(s)` accepts `s`, and `Level.parse(s)`
      (`None` when it throws). */
  datatype JavaLib = JavaLib(isAddress: string -> bool, parseLevel: string -> Option<int>)

  /** The exceptions `contextInitialized` throws. */
  datatype ConfigError =
    | MissingApplicationName      // "You must specify filter init-param named application-name"
    | MissingRecipients           // "You must scpecify filter init-param named recipient ..."
    | NoRecipientAddress          // "You must scpecify at least one mail address"
    | BadLevel(value: string)     // Level.parse rejected the min-level value
    | InvalidAddresses            // "Sender or recipients seems to be invalid"
    | AbsentSender                // the sender parameter is missing; the parser gets null

  /** What the listener has read before it builds the handler. */
  datatype Settings = Settings(appName: string, from: Option<string>, to: seq<string>, minLevel: int)

  /** A successful start: the handler added to the root logger, and the
      record announcing it. */
  datatype Installed = Installed(handler: Handler, announcement: Record)

  /** `context.getInitParameter(key)`: null for a key that is not set. */
  function InitParameter(params: map<string, string>, key: string): Option<string> {
    if key in params then Some(params[key]) else None
  }

  /** `null == p || "".equals(p.trim())`: a parameter is blank when it is
      missing or made only of characters at or below U+0020. */
  function Blank(p: Option<string>): (b: bool)
    ensures b <==> p.None? || Trim(p.value) == ""
  {
    p.None? || (TrimEmptyIff(p.value); AllTrimmable(p.value))
  }

  /** The parameter checks of `contextInitialized`, in the order it makes them. */
  function ReadSettings(lib: JavaLib, params: map<string, string>): (r: Result<Settings, ConfigError>)
    ensures r == Failure(MissingApplicationName) <==> Blank(InitParameter(params, APPLICATION))
    ensures r == Failure(MissingRecipients)
            <==> !Blank(InitParameter(params, APPLICATION)) && Blank(InitParameter(params, RECIPIENT))
    ensures r == Failure(NoRecipientAddress)
            <==> !Blank(InitParameter(params, APPLICATION)) && !Blank(InitParameter(params, RECIPIENT))
                 && forall k :: 0 <= k < |params[RECIPIENT]| ==> IsSeparator(params[RECIPIENT][k])
    ensures r.Failure? && r.error.BadLevel? ==>
              && MIN_LOG_LEVEL in params
              && r.error.value == params[MIN_LOG_LEVEL]
              && lib.parseLevel(params[MIN_LOG_LEVEL]).None?
    ensures !Blank(InitParameter(params, APPLICATION)) && !Blank(InitParameter(params, RECIPIENT))
            && Split(params[RECIPIENT]) != []
            && MIN_LOG_LEVEL in params && lib.parseLevel(params[MIN_LOG_LEVEL]).None?
            ==> r == Failure(BadLevel(params[MIN_LOG_LEVEL]))
    ensures r.Success? <==> !Blank(InitParameter(params, APPLICATION)) && !Blank(InitParameter(params, RECIPIENT))
                            && Split(params[RECIPIENT]) != []
                            && (MIN_LOG_LEVEL in params ==> lib.parseLevel(params[MIN_LOG_LEVEL]).Some?)
    ensures r.Success? ==> r.value.appName == params[APPLICATION]
                           && r.value.from == InitParameter(params, SENDER)
                           && r.value.to == Split(params[RECIPIENT]) && |r.value.to| > 0
    ensures r.Success? && MIN_LOG_LEVEL !in params ==> r.value.minLevel == SEVERE
    ensures r.Success? && MIN_LOG_LEVEL in params ==> Some(r.value.minLevel) == lib.parseLevel(params[MIN_LOG_LEVEL])
  {
    var appName := InitParameter(params, APPLICATION);
    var from := InitParameter(params, SENDER);
    var recipients := InitParameter(params, RECIPIENT);
    if appName.None? || (TrimEmptyIff(appName.value); Trim(appName.value) == "") then
      Failure(MissingApplicationName)
    else if recipients.None? || (TrimEmptyIff(recipients.value); Trim(recipients.value) == "") then
      Failure(MissingRecipients)
    else
      var to := Split(recipients.value);
      SplitEmptyIff(recipients.value);
      if |to| <= 0 then
        Failure(NoRecipientAddress)
      else
        match InitParameter(params, MIN_LOG_LEVEL)
        case None => Success(Settings(appName.value, from, to, SEVERE))
        case Some(minLevel) =>
          match lib.parseLevel(minLevel)
          case None => Failure(BadLevel(minLevel))
          case Some(level) => Success(Settings(appName.value, from, to, level))
  }

  /** The record the listener logs on its own logger after installing the
      handler, and again when the context goes down. `Logger.log(LogRecord)`
      leaves the record's logger name unset. The message has no format
      specifier, so formatting it yields it unchanged. */
  function Announcement(message: string, date: string): (r: Record)
    ensures r.level == INFO && r.sourceClassName == Some(LISTENER_CLASS)
    ensures r.loggerName.None? && r.thrown.None?
    ensures forall h: Handler :: Dispatch(h, r) == Send(Mail(RegistrationSubject(h.appName), REGISTRATION_INTRO + message))
  {
    Record(INFO, None, Some(LISTENER_CLASS), Some(message), Some(message), date, None)
  }

  /** `contextInitialized`: validate the parameters, build the handler (an
      `AddressException` becomes the single invalid-address error), then
      announce the handler. `now` is the announcement's rendered date. */
  function ContextInitialized(lib: JavaLib, params: map<string, string>, now: string): (r: Result<Installed, ConfigError>)
    ensures ReadSettings(lib, params).Failure? ==> r == Failure(ReadSettings(lib, params).error)
    ensures ReadSettings(lib, params).Success? ==>
              (r == Failure(AbsentSender) <==> SENDER !in params)
    ensures ReadSettings(lib, params).Success? ==>
              (r == Failure(InvalidAddresses)
               <==> SENDER in params
                    && !(lib.isAddress(params[SENDER])
                         && forall i :: 0 <= i < |Split(params[RECIPIENT])| ==> lib.isAddress(Split(params[RECIPIENT])[i])))
    ensures r.Success? <==> ReadSettings(lib, params).Success? && SENDER in params && lib.isAddress(params[SENDER])
                            && forall i :: 0 <= i < |Split(params[RECIPIENT])| ==> lib.isAddress(Split(params[RECIPIENT])[i])
    ensures r.Success? ==>
              var h := r.value.handler;
              && h.appName == params[APPLICATION]
              && h.sender == Address(params[SENDER])
              && |h.recipients| == |Split(params[RECIPIENT])| > 0
              && (forall i :: 0 <= i < |h.recipients| ==> h.recipients[i] == Address(Split(params[RECIPIENT])[i]))
              && h.minLevel == ReadSettings(lib, params).value.minLevel
    ensures r.Success? ==> r.value.announcement == Announcement(REGISTERED, now)
    ensures r.Success? ==>
              Dispatch(r.value.handler, r.value.announcement)
              == Send(Mail(RegistrationSubject(params[APPLICATION]), REGISTRATION_INTRO + REGISTERED))
  {
    match ReadSettings(lib, params)
    case Failure(e) => Failure(e)
    case Success(s) =>
      match NewHandler(lib.isAddress, s.appName, s.from, s.to, s.minLevel)
      case Failure(NullSender) => Failure(AbsentSender)
      case Failure(IllegalAddress(_)) => Failure(InvalidAddresses)
      case Success(h) => Success(Installed(h, Announcement(REGISTERED, now)))
  }

  /** `contextDestroyed`: the record announcing the handler's removal, which
      every mail handler turns into a registration notice. */
  function ContextDestroyed(now: string): (r: Record)
    ensures r.sourceClassName == Some(LISTENER_CLASS) && r.level == INFO
    ensures forall h: Handler :: Dispatch(h, r) == Send(Mail(RegistrationSubject(h.appName), REGISTRATION_INTRO + UNREGISTERED))
  {
    Announcement(UNREGISTERED, now)
  }

  // ---------------------------------------------------------------------------
  // Properties
  // ---------------------------------------------------------------------------

  /** Only the four keys are read: parameter maps that agree on them give the
      same result. */
  lemma OnlyFourKeysMatter(lib: JavaLib, p: map<string, string>, q: map<string, string>, now: string)
    requires InitParameter(p, APPLICATION) == InitParameter(q, APPLICATION)
    requires InitParameter(p, SENDER) == InitParameter(q, SENDER)
    requires InitParameter(p, RECIPIENT) == InitParameter(q, RECIPIENT)
    requires InitParameter(p, MIN_LOG_LEVEL) == InitParameter(q, MIN_LOG_LEVEL)
    ensures ReadSettings(lib, p) == ReadSettings(lib, q)
    ensures ContextInitialized(lib, p, now) == ContextInitialized(lib, q, now)
  {
  }

  /** A level given under `lin-level`, the key of the sample configuration in
      the class comment, is ignored: the level stays SEVERE. */
  lemma LinLevelIsIgnored(lib: JavaLib)
    ensures var params := map[APPLICATION := "Orders", RECIPIENT := "ops@orders.example", "lin-level" := "INFO"];
            ReadSettings(lib, params) == Success(Settings("Orders", None, ["ops@orders.example"], SEVERE))
  {
    var params := map[APPLICATION := "Orders", RECIPIENT := "ops@orders.example", "lin-level" := "INFO"];
    assert APPLICATION in params && params[APPLICATION] == "Orders";
    assert RECIPIENT in params && params[RECIPIENT] == "ops@orders.example";
    assert MIN_LOG_LEVEL !in params;
    assert SENDER !in params;
    assert !AllTrimmable("Orders") by { assert !IsTrimmable("Orders"[0]); }
    assert !AllTrimmable("ops@orders.example") by { assert !IsTrimmable("ops@orders.example"[0]); }
    assert !Blank(InitParameter(params, APPLICATION)) && !Blank(InitParameter(params, RECIPIENT));
    assert Split("ops@orders.example") == ["ops@orders.example"] by {
      assert NoSeparator("ops@orders.example");
    }
  }

  /** A recipient list made of a lone comma passes the blank check but splits
      into nothing. */
  lemma LoneCommaHasNoAddress(lib: JavaLib, now: string)
    ensures var params := map[APPLICATION := "Orders", SENDER := "noreply@orders.example", RECIPIENT := ","];
            ContextInitialized(lib, params, now) == Failure(NoRecipientAddress)
  {
    var params := map[APPLICATION := "Orders", SENDER := "noreply@orders.example", RECIPIENT := ","];
    assert !AllTrimmable("Orders") by { assert !IsTrimmable("Orders"[0]); }
    assert !AllTrimmable(",") by { assert !IsTrimmable(","[0]); }
    SplitLoneComma();
  }

  /** An application name is required: missing or blank, the handler is never
      built. */
  lemma BlankNamesRejected(lib: JavaLib, now: string, name: string)
    requires AllTrimmable(name)
    ensures ContextInitialized(lib, map[APPLICATION := name, RECIPIENT := "ops@orders.example"], now)
            == Failure(MissingApplicationName)
    ensures ContextInitialized(lib, map[RECIPIENT := "ops@orders.example"], now)
            == Failure(MissingApplicationName)
  {
    assert InitParameter(map[RECIPIENT := "ops@orders.example"], APPLICATION) == None;
  }

  /** An empty or blank recipient parameter is rejected before splitting. */
  lemma BlankRecipientsRejected(lib: JavaLib, now: string, recipients: string)
    requires AllTrimmable(recipients)
    ensures ContextInitialized(lib, map[APPLICATION := "Orders", RECIPIENT := recipients], now)
            == Failure(MissingRecipients)
  {
    assert !AllTrimmable("Orders") by { assert !IsTrimmable("Orders"[0]); }
  }

  /** "a, b" splits into three fields, the middle one empty, so a list written
      with comma and space is rejected as soon as the address parser rejects
      the empty string. */
  lemma CommaSpaceListNeedsEmptyAddress(lib: JavaLib, now: string)
    requires !lib.isAddress("")
    ensures var params := map[APPLICATION := "Orders", SENDER := "noreply@orders.example", RECIPIENT := "a, b"];
            ContextInitialized(lib, params, now) == Failure(InvalidAddresses)
  {
    var params := map[APPLICATION := "Orders", SENDER := "noreply@orders.example", RECIPIENT := "a, b"];
    assert APPLICATION in params && params[APPLICATION] == "Orders";
    assert RECIPIENT in params && params[RECIPIENT] == "a, b";
    assert SENDER in params && params[SENDER] == "noreply@orders.example";
    assert MIN_LOG_LEVEL !in params;
    assert !AllTrimmable("Orders") by { assert !IsTrimmable("Orders"[0]); }
    assert !AllTrimmable("a, b") by { assert !IsTrimmable("a, b"[0]); }
    SplitSpaces();
    assert ReadSettings(lib, params) == Success(Settings("Orders", Some("noreply@orders.example"), ["a", "", "b"], SEVERE));
    assert !lib.isAddress(["a", "", "b"][1]);
  }

  /** On a successful start the announcement is mailed as a registration
      notice whatever the minimum level: it carries no logger name, so the
      alert row never takes it. */
  lemma AnnouncementIsNeverAnAlert(lib: JavaLib, params: map<string, string>, now: string)
    requires ContextInitialized(lib, params, now).Success?
    ensures var i := ContextInitialized(lib, params, now).value;
            !IsAlert(i.handler, i.announcement) && IsRegistration(i.announcement)
  {
  }

  /** As written, the announcement reaches the throwing guard whenever the
      minimum level is at most INFO. */
  lemma AsWrittenAnnouncementThrows(h: Handler, now: string)
    requires h.minLevel <= INFO
    ensures DispatchAsWritten(ANONYMOUS_LOGGER_NAME, h, Announcement(REGISTERED, now)) == Raise(NullReceiver)
    ensures Dispatch(h, Announcement(REGISTERED, now)).Send?
  {
  }
}
