# jcl-mail-handler, modelled in Dafny

This project models `jcl-mail-handler`, a `java.util.logging` handler that mails selected log records to a fixed list of recipients. It covers two pieces:

- **`MailHandler`** (`mail_handler.dfy`). The constructor maps the recipient strings to addresses. `publish` is a two-row decision table:
  - a record at or above the minimum level that is not from the anonymous logger becomes an alert mail;
  - otherwise, a record whose source class is the context listener becomes a registration notice;
  - anything else is dropped.

  The model also covers the exact subjects and bodies of both mails, the failed send that is caught and reported on the anonymous logger, and the no-op `flush` and `close`.
- **`LoggerContextListener`** (`context_listener.dfy`). `contextInitialized` reads four init parameters (`application-name`, `sender`, `recipient`, `min-level`), checks them, splits the recipient list, picks the default level and builds the handler. Then it logs the "MailHandler registered" record. `contextDestroyed` logs "MailHandler unregistered".

Two support modules model what the listener takes from the Java library:
- `java_strings.dfy` models `String.trim` and `String.split("[, ]")`, following `Pattern.split` with limit zero. It gives both a declarative definition and the scanning loop, and proves them equal.
- `logging.dfy` models level values, `LogRecord` and the class-name constants.

`wrappers.dfy` holds `Option` (a Java reference that may be null) and `Result` (a return or a thrown error).

Everything is a pure function over immutable datatypes. The model takes some things as inputs instead of computing them:
- text the JVM renders: the record's date, `String.format` of its message, and the stack trace;
- what the mail transport did with a mail;
- whether `InternetAddress` accepts a string, and what `Level.parse` returns. These two are the fields of `JavaLib`.
- the servlet context's init parameters, as a map from key to value; `getInitParameter` of an unset key reads as null (`InitParameter`).

Facts about the code that shape the model:
- Recipients are a sequence in the order given, with duplicates kept (MailHandler.java:84-87).
- `Level.parse` accepts whatever the library accepts, names and integers alike (LoggerContextListener.java:121).
- The alert row is checked first, so a record from the listener gets the registration notice only when it fails the alert row (MailHandler.java:107-128).
- The sample configuration in the class comment uses the key `lin-level`, but the code reads `min-level` (LoggerContextListener.java:54 and 79).
- The alert row compares logger names null-safely in the model (see "## Findings"). Since the anonymous logger's name is null, this exempts from the alert row every record whose logger name is null, not only the anonymous logger's. That includes every record passed to `Logger.log(LogRecord)` without a logger name, such as the listener's announcements.

## Model

| member | source | states |
|---|---|---|
| JavaStrings.Trim | src/main/java/fr/dudie/logging/jcl/LoggerContextListener.java:95 | `trim` returns the contiguous part of the string left after removing the leading and trailing characters at or below U+0020; a non-empty result starts and ends with a character above U+0020 |
| JavaStrings.TrimIdempotent | src/main/java/fr/dudie/logging/jcl/LoggerContextListener.java:95 | trimming a trimmed string changes nothing |
| JavaStrings.TrimEmptyIff | src/main/java/fr/dudie/logging/jcl/LoggerContextListener.java:105 | a parameter is blank after `trim` exactly when every character of it is at most U+0020 (the empty string included) |
| JavaStrings.Split | src/main/java/fr/dudie/logging/jcl/LoggerContextListener.java:110 | `split("[, ]")` yields at most one field more than there are separators, no field contains a comma or space, and a separator-free string comes back whole |
| JavaStrings.SplitScan | src/main/java/fr/dudie/logging/jcl/LoggerContextListener.java:110 | the `Pattern.split` scan (segments before each match, input returned whole when nothing matched, trailing empty fields shrunk away) returns exactly the declarative split |
| JavaStrings.JoinRawFields | src/main/java/fr/dudie/logging/jcl/LoggerContextListener.java:110 | the fields between separators, joined again with the original separators, give back the string |
| JavaStrings.RawFieldsUnique | src/main/java/fr/dudie/logging/jcl/LoggerContextListener.java:110 | the fields are the only separator-free pieces that join back into the string: they are the maximal separator-free substrings |
| JavaStrings.SplitReconstructs | src/main/java/fr/dudie/logging/jcl/LoggerContextListener.java:110 | the fields `split` keeps, joined with the separators between them and followed by the remaining separators, reconstruct the untrimmed string |
| JavaStrings.SplitEmptyIff | src/main/java/fr/dudie/logging/jcl/LoggerContextListener.java:110-113 | `split` returns an empty array exactly for a non-empty string made only of commas and spaces |
| JavaStrings.SplitLoneComma | src/main/java/fr/dudie/logging/jcl/LoggerContextListener.java:110-113 | `",".split("[, ]")` is the empty array |
| JavaStrings.SplitInnerAndTrailingEmpty | src/main/java/fr/dudie/logging/jcl/LoggerContextListener.java:110 | `"a,,b,"` splits into `a`, empty, `b`: inner empty fields stay, trailing ones go |
| JavaStrings.SplitSpaces | src/main/java/fr/dudie/logging/jcl/LoggerContextListener.java:110 | a leading space gives an empty first field, and `"a, b"` gives three fields with an empty middle one |
| MailHandler.ParseRecipients | src/main/java/fr/dudie/logging/jcl/MailHandler.java:84-87 | one address per recipient string, same length and order; if any is rejected, the error names the first rejected entry and every earlier entry was accepted |
| MailHandler.NewHandler | src/main/java/fr/dudie/logging/jcl/MailHandler.java:77-88 | the handler is built exactly when the sender is present and valid and every recipient is valid; it keeps the name, level, sender and the recipients in order; a null sender and an invalid sender are reported before any recipient, and with a valid sender the error is the one for the first rejected recipient |
| MailHandler.IsAlert | src/main/java/fr/dudie/logging/jcl/MailHandler.java:107-108 | the alert row holds exactly when the record is at or above the minimum level and has a logger name: with the anonymous logger's name null, a null-safe comparison exempts exactly the unnamed records |
| MailHandler.IsRegistration | src/main/java/fr/dudie/logging/jcl/MailHandler.java:128 | the registration row holds only for a record whose source class is the listener's class name; a null source class and the handler's own class never match |
| MailHandler.AlertBody | src/main/java/fr/dudie/logging/jcl/MailHandler.java:112-124 | the alert body starts with the intro, ends with a line break, and is 20 characters longer than the intro, name, date and message together, plus 13 and the trace when a throwable is attached |
| MailHandler.RegistrationBody | src/main/java/fr/dudie/logging/jcl/MailHandler.java:132-134 | the registration body is the intro followed by the raw message, which can be read back after the intro; a null message reads back as `null` |
| MailHandler.Dispatch | src/main/java/fr/dudie/logging/jcl/MailHandler.java:105-138 | a record is dropped exactly when it passes neither row; only an alert whose message cannot be formatted throws; a mail has the alert subject exactly when the alert row holds and the registration subject exactly when it does not |
| MailHandler.SubjectsDiffer | src/main/java/fr/dudie/logging/jcl/MailHandler.java:128-130 | the alert subject and the registration subject never coincide, whatever the application names |
| MailHandler.SubjectsNameTheApplication | src/main/java/fr/dudie/logging/jcl/MailHandler.java:110 | equal subjects of the same kind imply equal application names |
| MailHandler.AlertRule | src/main/java/fr/dudie/logging/jcl/MailHandler.java:107-126 | a record at or above the threshold and not from the anonymous logger yields exactly one mail with subject `[appName] Error event logged`, even when its source class is the listener |
| MailHandler.RegistrationRule | src/main/java/fr/dudie/logging/jcl/MailHandler.java:128-136 | a record failing the alert row whose source class is the listener yields exactly one mail with subject `[appName] Logger handler registering event` and the intro followed by the raw message (`null` printed as such) |
| MailHandler.DropRule | src/main/java/fr/dudie/logging/jcl/MailHandler.java:105-138 | a record passing neither row yields no mail, no report and no fault, whatever the transport would have done |
| MailHandler.ThresholdMonotone | src/main/java/fr/dudie/logging/jcl/MailHandler.java:107 | a record that raises an alert at one minimum level raises the same alert at every lower one |
| MailHandler.RegistrationIgnoresFormattingAndTrace | src/main/java/fr/dudie/logging/jcl/MailHandler.java:132-134 | outside the alert row the outcome does not depend on the formatted message or the stack trace: the notice is unformatted and has no trace section |
| MailHandler.AlertTraceSection | src/main/java/fr/dudie/logging/jcl/MailHandler.java:120-124 | the alert body ends with a line break, and an attached throwable inserts `\nStacktrace:\n` plus the trace just before that final line break and nowhere else |
| MailHandler.AlertMessageLine | src/main/java/fr/dudie/logging/jcl/MailHandler.java:112-118 | the alert body opens with the intro and the application name, then `.\n\nDate: ` and the date, then `\nMessage: ` and the formatted message, each read back at its offset |
| MailHandler.RegistrationBodyVerbatim | src/main/java/fr/dudie/logging/jcl/MailHandler.java:133-134 | the registration body is the intro `A logger handler have been modified: \n\n` followed by the message verbatim |
| MailHandler.FailureReport | src/main/java/fr/dudie/logging/jcl/MailHandler.java:159-161 | the record logged when sending fails is SEVERE, carries the anonymous logger's name and does not come from the listener |
| MailHandler.Publish | src/main/java/fr/dudie/logging/jcl/MailHandler.java:148-163 | one mail goes to the transport exactly when the table says send; a failed send is never raised and produces exactly one report, the SEVERE record logged on the anonymous logger with the transport's message, which the publishing handler itself drops |
| MailHandler.ReportIsDroppedEverywhere | src/main/java/fr/dudie/logging/jcl/MailHandler.java:159-161 | the report of a failed send is dropped by every mail handler, whatever its threshold, so a failing transport never causes an alert loop |
| MailHandler.RunSplits | src/main/java/fr/dudie/logging/jcl/MailHandler.java:105-138 | the handler keeps nothing between calls: the mails of a sequence of calls are the mails of its parts, concatenated |
| MailHandler.FlushAndCloseChangeNothing | src/main/java/fr/dudie/logging/jcl/MailHandler.java:171-183 | removing a `flush` or `close` call from any sequence of calls changes none of the mails sent, and a closed handler keeps sending |
| MailHandler.DispatchAsWritten | src/main/java/fr/dudie/logging/jcl/MailHandler.java:107-108 | with the guard as written, a null anonymous-logger name makes every record at or above the threshold throw; below the threshold it agrees with the corrected table |
| MailHandler.AsWrittenLosesEveryAlert | src/main/java/fr/dudie/logging/jcl/MailHandler.java:107-108 | a formatted record at or above the threshold from a named logger throws as written, where the corrected table sends the alert |
| MailHandler.AsWrittenReportEscapes | src/main/java/fr/dudie/logging/jcl/MailHandler.java:159-161 | as written, the report of a failed send throws in the guard whenever the threshold is at most SEVERE, where the corrected table drops it |
| MailHandler.AsWrittenExample | src/main/java/fr/dudie/logging/jcl/MailHandler.java:107-108 | a SEVERE record from `com.orders.Worker` with the threshold at SEVERE: as written it throws; corrected, it is mailed as `[Orders] Error event logged` |
| ContextListener.Blank | src/main/java/fr/dudie/logging/jcl/LoggerContextListener.java:95-105 | a parameter counts as blank exactly when it is null or `trim` leaves the empty string |
| ContextListener.ReadSettings | src/main/java/fr/dudie/logging/jcl/LoggerContextListener.java:91-122 | each error, in order, holds exactly when its check fails: blank name, blank recipients, recipients made only of separators, and an unparsable level (its error carries the rejected value); on success the name is kept untrimmed, the sender is passed on unchecked, the recipients are the non-empty split, and the level is SEVERE when absent or else what `Level.parse` returns |
| ContextListener.Announcement | src/main/java/fr/dudie/logging/jcl/LoggerContextListener.java:136-138 | the listener's record is INFO, has the listener as source class and no logger name, and every mail handler turns it into a registration notice carrying its message |
| ContextListener.ContextInitialized | src/main/java/fr/dudie/logging/jcl/LoggerContextListener.java:89-140 | a parameter error stops the start; with valid parameters, a missing sender and invalid addresses each give their own single error, and the start succeeds exactly when the sender is present and every address is accepted; on success the handler holds the name, the sender and one address per split field in order, and the record it logs is the INFO `MailHandler registered` announcement, which it mails as a registration notice |
| ContextListener.ContextDestroyed | src/main/java/fr/dudie/logging/jcl/LoggerContextListener.java:148-153 | the shutdown record is INFO with the listener as source class, and every mail handler mails it as a registration notice saying `MailHandler unregistered` |
| ContextListener.OnlyFourKeysMatter | src/main/java/fr/dudie/logging/jcl/LoggerContextListener.java:70-79 | two parameter maps that agree on `application-name`, `sender`, `recipient` and `min-level` give the same outcome |
| ContextListener.LinLevelIsIgnored | src/main/java/fr/dudie/logging/jcl/LoggerContextListener.java:54 | a level given under the documented key `lin-level` is ignored and the level stays SEVERE |
| ContextListener.LoneCommaHasNoAddress | src/main/java/fr/dudie/logging/jcl/LoggerContextListener.java:110-113 | the recipient value `,` passes the blank check but fails with the at-least-one-address error |
| ContextListener.BlankNamesRejected | src/main/java/fr/dudie/logging/jcl/LoggerContextListener.java:94-98 | a missing or blank application name is an error, and no handler is built |
| ContextListener.BlankRecipientsRejected | src/main/java/fr/dudie/logging/jcl/LoggerContextListener.java:104-108 | an empty or blank recipient value is an error before any splitting |
| ContextListener.CommaSpaceListNeedsEmptyAddress | src/main/java/fr/dudie/logging/jcl/LoggerContextListener.java:110 | the list `a, b` yields an empty middle field, so the start fails with the invalid-address error whenever the address parser rejects the empty string |
| ContextListener.AnnouncementIsNeverAnAlert | src/main/java/fr/dudie/logging/jcl/LoggerContextListener.java:136-138 | after a successful start the announcement fails the alert row whatever the level, because it has no logger name, and it matches the registration row |
| ContextListener.AsWrittenAnnouncementThrows | src/main/java/fr/dudie/logging/jcl/LoggerContextListener.java:136-138 | as written, the announcement reaches the throwing guard whenever the threshold is at most INFO; the corrected table mails it |

## Left out

- JavaMail's `Session`, `MimeMessage` and `Transport.send` are network I/O. Each send's outcome is an input, `Delivery`: delivered, or undeliverable with the exception's message.
- The global logging registry is left out: `Logger.getLogger("").addHandler`, `Logger.getAnonymousLogger()`, and the walk from a logger up to the root's handlers. Installing the handler is the `Installed` result. The model assumes the listener's logger passes its INFO announcements on to the handler.
- The anonymous logger's name and the listener's class name are constants (`Logging.ANONYMOUS_LOGGER_NAME`, `Logging.LISTENER_CLASS`).
- `new Date(millis).toString()`, `String.format(message, parameters)` and `printStackTrace` depend on locale, time zone and JVM formatting, so their text is an input. A `String.format` that throws is the outcome `Raise(BadFormat)`.
- The subject's `String.format("[%s] ...", appName)` is modelled as concatenation, because the name is never null there.
- `InternetAddress` parsing (RFC 822 address syntax) and `Level.parse` are library internals. They are the two fields of `JavaLib`.
- An absent sender gets its own error, `AbsentSender`, distinct from the invalid-address error. This is because the listener translates only `AddressException`, and the parser is handed a null string. Which exception the library raises for that is outside this model.
- The exact text of the `IllegalArgumentException` messages is not modelled. Each one is a `ConfigError` constructor, with its text in a comment.
- The FINE debug output (LoggerContextListener.java lines 124-127) is diagnostics only.
- Concurrent calls of `publish` are left out. The handler has no mutable state, and `RunSplits` states that calls are independent.
- `MailHandler.Run` only bounds the number of mails by the number of calls. What a run sends is stated by `RunSplits`, `FlushAndCloseChangeNothing` and `Publish`.

## Findings

| source | as written | input that shows it | evidently intended | confidence | as-written member | corrected member |
|---|---|---|---|---|---|---|
| src/main/java/fr/dudie/logging/jcl/MailHandler.java:107-108 | `ANONYMOUS_LOGGER_NAME.equals(record.getLoggerName())` calls `equals` on the anonymous logger's name. That name is null, because `Logger.getAnonymousLogger()` creates a logger without a name. So `publish` throws `NullPointerException` for every record at or above the minimum level. This holds for the report of a failed send too (threshold at most SEVERE), and for the listener's INFO announcement (threshold at most INFO). | a SEVERE record from logger `com.orders.Worker` with the minimum level at SEVERE | skip only records whose logger name equals the anonymous logger's, comparing null-safely, and alert on every other record at or above the threshold | not executed; high, resting on the JDK's documented null name for anonymous loggers | MailHandler.DispatchAsWritten | MailHandler.Dispatch |

`MailHandler.AsWrittenLosesEveryAlert`, `MailHandler.AsWrittenReportEscapes`, `MailHandler.AsWrittenExample` and `ContextListener.AsWrittenAnnouncementThrows` prove the as-written behaviour. `MailHandler.AlertRule`, `MailHandler.Publish` and `ContextListener.AnnouncementIsNeverAnAlert` prove the intended behaviour of the corrected table, which the rest of the model uses.
