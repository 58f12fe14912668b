/** The run-type enum and the `@EventHandler` annotation of the
    annotation-driven snapshot. */
module Annotations {

  /** Which thread an event handler runs on. */
  datatype RunType = Default | Main | Background

  /** `RunType.name()`. */
  function RunTypeName(t: RunType): string
  {
    match t
    case Default => "DEFAULT"
    case Main => "MAIN"
    case Background => "BACKGROUND"
  }

  /** `@EventHandler(runType = ...)`. */
  datatype EventHandler = EventHandler(runType: RunType)

  /** `@EventHandler` written without arguments. */
  const PlainEventHandler := EventHandler(Background)
}

/** The two-valued run-type enum shared by the reflection-based snapshots. */
module LegacyRunTypes {

  /** On the posting thread, or on the main thread. */
  datatype RunType = Default | Main
}
