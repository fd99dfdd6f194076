/** `fr.dudie.logging.jcl.MailHandler`: a `java.util.logging.Handler` that turns
    selected log records into plain-text mails.

    `publish` is a two-row decision table followed by string assembly:
    a record at or above the handler's minimum level that does not come from
    the anonymous logger becomes an alert mail; otherwise a record whose source
    class is the context listener becomes a registration notice; anything else
    is dropped. Sending is delegated to JavaMail, whose outcome is an input of
    the model; a failed send is reported on the anonymous logger and never
    escapes `publish`. */
module MailHandler {
  import opened Wrappers
  import opened Logging

  /** A mail address accepted by `javax.mail.internet.InternetAddress`. */
  datatype Address = Address(text: string)

  /** The handler's state, fixed by its constructor. */
  datatype Handler = Handler(appName: string, sender: Address, recipients: seq<Address>, minLevel: int)

  /** Why the constructor throws. */
  datatype ConstructionError =
    | NullSender                    // the sender string is null; not an AddressException
    | IllegalAddress(text: string)  // the AddressException for the first rejected address

  // ---------------------------------------------------------------------------
  // Construction
  // ---------------------------------------------------------------------------

  /** The constructor's recipient loop: one `InternetAddress` per entry, in
      order, stopping at the first entry the parser rejects. */
  function ParseRecipients(isAddress: string -> bool, to: seq<string>): (r: Result<seq<Address>, ConstructionError>)
    ensures r.Success? <==> forall i :: 0 <= i < |to| ==> isAddress(to[i])
    ensures r.Success? ==> |r.value| == |to|
    ensures r.Success? ==> forall i :: 0 <= i < |to| ==> r.value[i] == Address(to[i])
    ensures r.Failure? ==> exists i :: 0 <= i < |to| && r.error == IllegalAddress(to[i])
                                       && !isAddress(to[i])
                                       && forall j :: 0 <= j < i ==> isAddress(to[j])
  {
    if |to| == 0 then Success([])
    else if !isAddress(to[0]) then Failure(IllegalAddress(to[0]))
    else
      match ParseRecipients(isAddress, to[1..])
      case Failure(e) => Failure(e)
      case Success(rest) => Success([Address(to[0])] + rest)
  }

  /** `new MailHandler(appName, from, to, level)`: the sender is parsed first,
      then every recipient. */
  function NewHandler(isAddress: string -> bool, appName: string, from: Option<string>,
                      to: seq<string>, minLevel: int): (r: Result<Handler, ConstructionError>)
    ensures from.None? ==> r == Failure(NullSender)
    ensures r.Success? <==> from.Some? && isAddress(from.value)
                            && forall i :: 0 <= i < |to| ==> isAddress(to[i])
    ensures from.Some? && !isAddress(from.value) ==> r == Failure(IllegalAddress(from.value))
    ensures from.Some? && isAddress(from.value) && r.Failure? ==> r.error == ParseRecipients(isAddress, to).error
    ensures r.Success? ==> r.value.appName == appName && r.value.minLevel == minLevel
                           && r.value.sender == Address(from.value)
    ensures r.Success? ==> |r.value.recipients| == |to|
                           && forall i :: 0 <= i < |to| ==> r.value.recipients[i] == Address(to[i])
  {
    match from
    case None => Failure(NullSender)
    case Some(f) =>
      if !isAddress(f) then Failure(IllegalAddress(f))
      else
        match ParseRecipients(isAddress, to)
        case Failure(e) => Failure(e)
        case Success(recipients) => Success(Handler(appName, Address(f), recipients, minLevel))
  }

  // ---------------------------------------------------------------------------
  // The decision table of publish
  // ---------------------------------------------------------------------------

  /** First row: at or above the minimum level, and not from the anonymous
      logger (names compared null-safely). */
  function IsAlert(h: Handler, r: Record): (b: bool)
    ensures b <==> r.level >= h.minLevel && r.loggerName.Some?
  {
    r.level >= h.minLevel && r.loggerName != ANONYMOUS_LOGGER_NAME
  }

  /** Second row: logged with the context listener as source class, compared
      null-safely by calling `equals` on the class name. */
  function IsRegistration(r: Record): (b: bool)
    ensures b ==> r.sourceClassName.Some? && r.sourceClassName.value == LISTENER_CLASS
    ensures r.sourceClassName.None? || r.sourceClassName == Some(HANDLER_CLASS) ==> !b
  {
    r.sourceClassName == Some(LISTENER_CLASS)
  }

  datatype Mail = Mail(subject: string, body: string)

  /** What `publish` can throw before a mail is handed over. */
  datatype Fault =
    | BadFormat     // String.format rejected the record's message and parameters
    | NullReceiver  // a method was called on a null reference

  /** The outcome of `publish` before anything reaches the transport. */
  datatype Publication = Drop | Send(mail: Mail) | Raise(fault: Fault)

  const ALERT_INTRO: string := "An error event has been logged for application "
  const REGISTRATION_INTRO: string := "A logger handler have been modified: \n\n"

  function AlertSubject(appName: string): string {
    "[" + appName + "] Error event logged"
  }

  function RegistrationSubject(appName: string): string {
    "[" + appName + "] Logger handler registering event"
  }

  /** The alert body as the StringWriter accumulates it; the stack-trace
      section is present only when a throwable is attached. */
  function AlertBody(appName: string, date: string, message: string, trace: Option<string>): (b: string)
    ensures |b| == |ALERT_INTRO| + |appName| + |date| + |message| + 20
                   + (match trace case None => 0 case Some(t) => 13 + |t|)
    ensures b[..|ALERT_INTRO|] == ALERT_INTRO && b[|b| - 1] == '\n'
  {
    ALERT_INTRO + appName + "." + "\n\nDate: " + date + "\nMessage: " + message
    + (match trace case None => "" case Some(t) => "\nStacktrace:\n" + t)
    + "\n"
  }

  /** The registration body: the record's raw message, neither formatted nor
      followed by a stack trace. */
  function RegistrationBody(message: Option<string>): (b: string)
    ensures |b| == |REGISTRATION_INTRO| + |Text(message)|
    ensures b[..|REGISTRATION_INTRO|] == REGISTRATION_INTRO
    ensures b[|REGISTRATION_INTRO|..] == Text(message)
    ensures message.None? ==> b[|REGISTRATION_INTRO|..] == "null"
  {
    REGISTRATION_INTRO + Text(message)
  }

  /** `publish` up to the call of `sendMail`: the decision table, alert row first. */
  function Dispatch(h: Handler, r: Record): (p: Publication)
    ensures p.Drop? <==> !IsAlert(h, r) && !IsRegistration(r)
    ensures p.Raise? <==> IsAlert(h, r) && r.formatted.None?
    ensures p != Raise(NullReceiver)
    ensures p.Send? ==> (p.mail.subject == AlertSubject(h.appName) <==> IsAlert(h, r))
    ensures p.Send? ==> (p.mail.subject == RegistrationSubject(h.appName) <==> !IsAlert(h, r))
  {
    SubjectsDiffer(h.appName, h.appName);
    if IsAlert(h, r) then
      match r.formatted
      case None => Raise(BadFormat)
      case Some(text) => Send(Mail(AlertSubject(h.appName), AlertBody(h.appName, r.date, text, r.thrown)))
    else if IsRegistration(r) then
      Send(Mail(RegistrationSubject(h.appName), RegistrationBody(r.message)))
    else
      Drop
  }

  // ---------------------------------------------------------------------------
  // Properties of the decision table and of the mails
  // ---------------------------------------------------------------------------

  /** The two subjects never coincide, whatever the application names: a
      reader can tell which row produced a mail. */
  lemma SubjectsDiffer(a: string, b: string)
    ensures AlertSubject(a) != RegistrationSubject(b)
  {
    var x, y := AlertSubject(a), RegistrationSubject(b);
    assert x[|x| - 1] == 'd';
    assert y[|y| - 1] == 't';
  }

  /** Each subject names its application: equal subjects mean equal names. */
  lemma SubjectsNameTheApplication(a: string, b: string)
    ensures AlertSubject(a) == AlertSubject(b) ==> a == b
    ensures RegistrationSubject(a) == RegistrationSubject(b) ==> a == b
  {
    if AlertSubject(a) == AlertSubject(b) {
      assert a == AlertSubject(a)[1..|a| + 1];
      assert b == AlertSubject(b)[1..|b| + 1];
    }
    if RegistrationSubject(a) == RegistrationSubject(b) {
      assert a == RegistrationSubject(a)[1..|a| + 1];
      assert b == RegistrationSubject(b)[1..|b| + 1];
    }
  }

  /** A record that passes the alert row becomes exactly one alert mail, even
      when it also comes from the listener (the alert row wins). */
  lemma AlertRule(h: Handler, r: Record)
    requires r.level >= h.minLevel && r.loggerName != ANONYMOUS_LOGGER_NAME
    requires r.formatted.Some?
    ensures Dispatch(h, r) == Send(Mail("[" + h.appName + "] Error event logged",
                                        AlertBody(h.appName, r.date, r.formatted.value, r.thrown)))
    ensures Dispatch(h, r).mail.subject != RegistrationSubject(h.appName)
  {
    SubjectsDiffer(h.appName, h.appName);
  }

  /** A record that fails the alert row but comes from the listener becomes
      exactly one registration notice. */
  lemma RegistrationRule(h: Handler, r: Record)
    requires !(r.level >= h.minLevel && r.loggerName != ANONYMOUS_LOGGER_NAME)
    requires r.sourceClassName == Some(LISTENER_CLASS)
    ensures Dispatch(h, r) == Send(Mail("[" + h.appName + "] Logger handler registering event",
                                        "A logger handler have been modified: \n\n" + Text(r.message)))
  {
  }

  /** A record below the minimum level (or from the anonymous logger) that does
      not come from the listener produces no mail and no fault. */
  lemma DropRule(h: Handler, r: Record)
    requires r.level < h.minLevel || r.loggerName == ANONYMOUS_LOGGER_NAME
    requires r.sourceClassName != Some(LISTENER_CLASS)
    ensures Dispatch(h, r) == Drop
    ensures forall d :: Publish(h, r, d) == Effect(None, None, None)
  {
  }

  /** Lowering the minimum level never loses an alert. */
  lemma ThresholdMonotone(h: Handler, r: Record, lower: int)
    requires lower <= h.minLevel
    requires IsAlert(h, r)
    ensures IsAlert(h.(minLevel := lower), r)
    ensures Dispatch(h.(minLevel := lower), r) == Dispatch(h, r)
  {
  }

  /** The registration notice ignores the record's formatting and stack trace. */
  lemma RegistrationIgnoresFormattingAndTrace(h: Handler, r: Record, formatted: Option<string>, thrown: Option<string>)
    requires !IsAlert(h, r)
    ensures Dispatch(h, r.(formatted := formatted, thrown := thrown)) == Dispatch(h, r)
  {
  }

  /** The stack-trace section is inserted just before the final line break of
      the body a record without throwable gets, and is otherwise absent. */
  lemma {:induction false} AlertTraceSection(appName: string, date: string, message: string, trace: string)
    ensures var plain := AlertBody(appName, date, message, None);
            |plain| > 0 && plain[|plain| - 1] == '\n'
            && AlertBody(appName, date, message, Some(trace))
               == plain[..|plain| - 1] + "\nStacktrace:\n" + trace + "\n"
  {
    var head := ALERT_INTRO + appName + "." + "\n\nDate: " + date + "\nMessage: " + message;
    var plain := AlertBody(appName, date, message, None);
    assert plain == head + "" + "\n";
    assert plain[..|plain| - 1] == head;
  }

  /** The rendered message stands on the line that follows the date line. */
  lemma {:induction false} AlertMessageLine(appName: string, date: string, message: string, trace: Option<string>)
    ensures var body := AlertBody(appName, date, message, trace);
            var at := |ALERT_INTRO| + |appName| + |".\n\nDate: "| + |date|;
            at + |"\nMessage: "| + |message| <= |body|
            && body[..|ALERT_INTRO|] == ALERT_INTRO
            && body[|ALERT_INTRO|..|ALERT_INTRO| + |appName|] == appName
            && body[|ALERT_INTRO| + |appName|..at] == ".\n\nDate: " + date
            && body[at..at + |"\nMessage: "| + |message|] == "\nMessage: " + message
            && body[|body| - 1] == '\n'
  {
    var tail := (match trace case None => "" case Some(t) => "\nStacktrace:\n" + t) + "\n";
    var body := AlertBody(appName, date, message, trace);
    assert body == ALERT_INTRO + appName + (".\n\nDate: " + date) + ("\nMessage: " + message) + tail;
  }

  /** The registration body carries the message verbatim after the intro. */
  lemma {:induction false} RegistrationBodyVerbatim(message: string)
    ensures var body := RegistrationBody(Some(message));
            body[..|REGISTRATION_INTRO|] == REGISTRATION_INTRO
            && body[|REGISTRATION_INTRO|..] == message
  {
  }

  // ---------------------------------------------------------------------------
  // Sending, and the handler's life
  // ---------------------------------------------------------------------------

  /** What `Transport.send` did with one mail; a failure carries what the
      report record needs: the exception's message, and the date and
      formatting the JVM renders for the report. */
  datatype Delivery = Delivered | Undeliverable(reason: Option<string>, date: string, formatted: Option<string>)

  /** The observable effect of one `publish` call: the mail handed to the
      transport, the record reported on the anonymous logger, and the fault
      that escapes to the caller. */
  datatype Effect = Effect(attempted: Option<Mail>, report: Option<Record>, raised: Option<Fault>)

  /** The record `sendMail`'s catch block logs on the anonymous logger. */
  function FailureReport(reason: Option<string>, date: string, formatted: Option<string>): (r: Record)
    ensures r.level == SEVERE && r.loggerName == ANONYMOUS_LOGGER_NAME
    ensures r.sourceClassName != Some(LISTENER_CLASS)
  {
    Record(SEVERE, ANONYMOUS_LOGGER_NAME, Some(HANDLER_CLASS),
           Some("Can't forward log record to recipients " + Text(reason)), formatted, date, None)
  }

  /** `publish` with the transport's answer `d`: a failed send is swallowed and
      reported, and the report is dropped by every mail handler, so it cannot
      trigger another mail. */
  function Publish(h: Handler, r: Record, d: Delivery): (e: Effect)
    ensures e.raised.Some? <==> Dispatch(h, r).Raise?
    ensures e.raised.Some? ==> e.raised.value == BadFormat
    ensures e.attempted.Some? <==> Dispatch(h, r).Send?
    ensures e.attempted.Some? ==> e.attempted.value == Dispatch(h, r).mail
    ensures e.report.Some? <==> e.attempted.Some? && d.Undeliverable?
    ensures e.report.Some? ==> d.Undeliverable? && e.report.value == FailureReport(d.reason, d.date, d.formatted)
    ensures e.report.Some? ==> e.report.value.loggerName == ANONYMOUS_LOGGER_NAME
    ensures e.report.Some? ==> Dispatch(h, e.report.value) == Drop
  {
    match Dispatch(h, r)
    case Drop => Effect(None, None, None)
    case Raise(f) => Effect(None, None, Some(f))
    case Send(m) =>
      match d
      case Delivered => Effect(Some(m), None, None)
      case Undeliverable(reason, date, formatted) =>
        Effect(Some(m), Some(FailureReport(reason, date, formatted)), None)
  }

  /** The report of a failed send is dropped by every mail handler, whatever
      its minimum level: reporting a failure never produces another mail. */
  lemma ReportIsDroppedEverywhere(h: Handler, r: Record, d: Delivery, other: Handler)
    requires Publish(h, r, d).report.Some?
    ensures Dispatch(other, Publish(h, r, d).report.value) == Drop
    ensures Publish(other, Publish(h, r, d).report.value, d) == Effect(None, None, None)
  {
  }

  /** A call the logging framework makes on a handler. */
  datatype HandlerCall = PublishCall(record: Record, delivery: Delivery) | FlushCall | CloseCall

  /** The mail one call hands to the transport, if any. */
  function Sent(h: Handler, c: HandlerCall): (mails: seq<Mail>)
    ensures |mails| <= 1
    ensures !c.PublishCall? ==> mails == []
  {
    match c
    case PublishCall(r, d) =>
      (match Publish(h, r, d).attempted case None => [] case Some(m) => [m])
    case FlushCall => []
    case CloseCall => []
  }

  /** The mails of a sequence of calls, given the mails each call sends. */
  function Collect(f: HandlerCall -> seq<Mail>, calls: seq<HandlerCall>): (mails: seq<Mail>)
    ensures (forall c :: |f(c)| <= 1) ==> |mails| <= |calls|
  {
    if |calls| == 0 then [] else f(calls[0]) + Collect(f, calls[1..])
  }

  /** What one handler sends per call. */
  function SentBy(h: Handler): HandlerCall -> seq<Mail> {
    c => Sent(h, c)
  }

  /** The mails a handler hands to the transport over a sequence of calls. */
  function Run(h: Handler, calls: seq<HandlerCall>): (mails: seq<Mail>)
    ensures |mails| <= |calls|
  {
    Collect(SentBy(h), calls)
  }

  /** Collecting mails call by call splits at any point. */
  lemma {:induction false} CollectSplits(f: HandlerCall -> seq<Mail>, a: seq<HandlerCall>, b: seq<HandlerCall>)
    ensures Collect(f, a + b) == Collect(f, a) + Collect(f, b)
  {
    if |a| == 0 {
      assert a + b == b;
    } else {
      var ab := a + b;
      assert ab[0] == a[0];
      assert ab[1..] == a[1..] + b;
      CollectSplits(f, a[1..], b);
    }
  }

  /** The handler keeps nothing between calls: a run splits at any point. */
  lemma RunSplits(h: Handler, a: seq<HandlerCall>, b: seq<HandlerCall>)
    ensures Run(h, a + b) == Run(h, a) + Run(h, b)
  {
    CollectSplits(SentBy(h), a, b);
  }

  /** `flush` and `close` do nothing: removing either call from a run changes
      no mail, and a closed handler goes on sending. */
  lemma FlushAndCloseChangeNothing(h: Handler, before: seq<HandlerCall>, c: HandlerCall, after: seq<HandlerCall>)
    requires c == FlushCall || c == CloseCall
    ensures Run(h, before + [c] + after) == Run(h, before + after)
  {
    assert before + [c] + after == before + ([c] + after);
    RunSplits(h, before, [c] + after);
    assert ([c] + after)[0] == c && ([c] + after)[1..] == after;
    assert Run(h, [c] + after) == SentBy(h)(c) + Run(h, after) == Run(h, after);
    RunSplits(h, before, after);
  }

  // ---------------------------------------------------------------------------
  // The alert guard as written
  // ---------------------------------------------------------------------------

  /** `publish` with its guard as written: `anonymous.equals(loggerName)` calls
      `equals` on the anonymous logger's name, which throws when that name is
      null. `Dispatch` is the same table with the comparison made null-safe. */
  function DispatchAsWritten(anonymous: Option<string>, h: Handler, r: Record): (p: Publication)
    ensures r.level < h.minLevel ==> p == Dispatch(h, r)
    ensures anonymous.None? && r.level >= h.minLevel ==> p == Raise(NullReceiver)
  {
    if r.level >= h.minLevel then
      match anonymous
      case None => Raise(NullReceiver)
      case Some(name) =>
        if r.loggerName != Some(name) then
          match r.formatted
          case None => Raise(BadFormat)
          case Some(text) => Send(Mail(AlertSubject(h.appName), AlertBody(h.appName, r.date, text, r.thrown)))
        else if IsRegistration(r) then
          Send(Mail(RegistrationSubject(h.appName), RegistrationBody(r.message)))
        else
          Drop
    else if IsRegistration(r) then
      Send(Mail(RegistrationSubject(h.appName), RegistrationBody(r.message)))
    else
      Drop
  }

  /** With the anonymous logger's actual (null) name, no record at or above
      the minimum level ever becomes a mail; the intended alert is lost. */
  lemma AsWrittenLosesEveryAlert(h: Handler, r: Record)
    requires r.level >= h.minLevel && r.loggerName.Some? && r.formatted.Some?
    ensures DispatchAsWritten(ANONYMOUS_LOGGER_NAME, h, r) == Raise(NullReceiver)
    ensures Dispatch(h, r).Send? && Dispatch(h, r).mail.subject == AlertSubject(h.appName)
  {
  }

  /** As written, the report of a failed send reaches the same guard and
      throws, so the failure escapes `publish` whenever the minimum level is
      at most SEVERE. */
  lemma AsWrittenReportEscapes(h: Handler, reason: Option<string>, date: string, formatted: Option<string>)
    requires h.minLevel <= SEVERE
    ensures DispatchAsWritten(ANONYMOUS_LOGGER_NAME, h, FailureReport(reason, date, formatted)) == Raise(NullReceiver)
    ensures Dispatch(h, FailureReport(reason, date, formatted)) == Drop
  {
  }

  /** A concrete record that shows it: a SEVERE record from a named logger,
      with the minimum level at SEVERE. */
  lemma AsWrittenExample()
    ensures var h := Handler("Orders", Address("noreply@orders.example"), [Address("ops@orders.example")], SEVERE);
            var r := Record(SEVERE, Some("com.orders.Worker"), Some("com.orders.Worker"),
                            Some("disk full"), Some("disk full"), "Mon Jan 03 10:00:00 UTC 2011", None);
            DispatchAsWritten(ANONYMOUS_LOGGER_NAME, h, r) == Raise(NullReceiver)
            && Dispatch(h, r) == Send(Mail("[Orders] Error event logged",
                                           AlertBody("Orders", "Mon Jan 03 10:00:00 UTC 2011", "disk full", None)))
  {
    assert AlertSubject("Orders") == "[Orders] Error event logged";
  }
}
