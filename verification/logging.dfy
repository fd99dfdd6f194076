/** The parts of `java.util.logging` the handler and the listener touch: level
    values, the fields of a `LogRecord` that `publish` reads, and the class and
    logger names the two classes compare against. */
module Logging {
  import opened Wrappers

  /** `Level.SEVERE.intValue()`. */
  const SEVERE: int := 1000

  /** `Level.INFO.intValue()`. */
  const INFO: int := 800

  /** `LoggerContextListener.class.getName()`. */
  const LISTENER_CLASS: string := "fr.dudie.logging.jcl.LoggerContextListener"

  /** `MailHandler.class.getName()`, the source class a `LogRecord` infers for
      a message logged from inside the handler. */
  const HANDLER_CLASS: string := "fr.dudie.logging.jcl.MailHandler"

  /** `Logger.getAnonymousLogger().getName()`: an anonymous logger is created
      without a name, so this is `null`. */
  const ANONYMOUS_LOGGER_NAME: Option<string> := None

  /** A `LogRecord` as `publish` sees it. Text the JVM renders is taken as
      given: `date` is `new Date(millis).toString()`, `formatted` is
      `String.format(message, parameters)` (`None` when that call throws) and
      `thrown` is what `printStackTrace` writes for the attached throwable
      (`None` when there is none). */
  datatype Record = Record(
    level: int,
    loggerName: Option<string>,
    sourceClassName: Option<string>,
    message: Option<string>,
    formatted: Option<string>,
    date: string,
    thrown: Option<string>)

  /** How `StringBuilder.append` and string `+` render a possibly-null string. */
  function Text(s: Option<string>): string {
    match s
    case None => "null"
    case Some(t) => t
  }
}
