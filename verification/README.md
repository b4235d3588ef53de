# sylar: the logging and configuration core, modelled and proved

sylar is a small C++ server framework.  Its core is a logger whose output patterns are
compiled from `%`-directives, a registry of configuration variables that is loaded from
YAML, and the listener that joins the two: when the variable `logs` changes, it rebuilds
the loggers and appenders the new value describes.  All of it runs under scoped locks, in
threads that start through a semaphore handshake.  This project models that core in Dafny
and proves what it is for.  `dafny verify dfyconfig.toml` checks everything.

How the modules follow the program:

- `Pattern`, `Compiler`, `Formatter`: `LogFormatter`.  `Pattern.Lex` is the reading of a
  pattern as a function on the unread text; the methods of `Formatter` are the source's
  nested loops over the cursors `i`, `n` and `fmt_begin`, proved against it.  `Places` says
  where in the text the pieces start.  `RoundTrip` holds the theorems about printing and
  about direct interpretation, `Decimals` what each directive writes, `DefaultFormat` the
  line of the default pattern.
- `Logging`: `LogAppender`, `Logger` and `LoggerManager` as objects on one heap.  A
  `LoggerView` is what can be seen of a logger: level, pattern, and its appenders in order.
  A `World` keeps the trace of lines written and files reopened.
- `LogConfig`, `Reconciling`, `DefineCast`, `LogsVariable`: the `logs` definitions, the
  listener that reconciles the loggers, the casts from YAML, and the whole pipeline.
  `DefineReads` says field by field what the casts read.
- `Yaml`, `Config`, `Registry`, `Casts`: flattening a tree, one variable with its
  listeners, the registry with loading, and the container casts.  `Routes` says which nodes
  a tree lists and how keys spell a path, `ContainerReads` what the casts read and write.
- `Locks`, `Guards`, `SetValueRuns`, `Threads`: the concurrent parts, as interleaved steps
  of any number of threads.  `LoggerSteps` is the reconciling listener as the locked logger
  operations it is made of; `LogsRuns` interleaves them with the steps of threads setting
  `logs` at once, `MixedCalls` gives such a run that goes wrong, and `Announcements` says
  what the announcements of a history come to.
- `Throttle`: how often a file appender reopens its file.

Where the code departs from what its comments or evident intent say, the model follows the
code, shows the departure on an input, a run or the contract of the member, and proves when
the intent is met:

- Text after the last directive of a pattern is never written, because the flush sits
  inside the loop (`sylar/log.cc:400-404`): `RoundTrip.TrailingTextLost`,
  `RoundTrip.FormatRefinesDirect`.
- The second `%` of `%%` is read again (`sylar/log.cc:341-346`):
  `RoundTrip.EscapeExample`, `RoundTrip.EscapeReadAsIntendedIff`.
- After an unclosed `{` the pending text is written now and again later
  (`sylar/log.cc:395-403`): `RoundTrip.TextWrittenTwice`, `RoundTrip.LiteralsKeptOnceIff`.
- An empty or failing `formatter` text keeps the logger's old pattern
  (`sylar/log.cc:496-498`, `sylar/log.h:253-257`): `Reconciling.KeptFormatter`,
  `Reconciling.HistoryFreeIff`, `Reconciling.RunPatterns`.
- `Lookup` with a default replaces an existing variable of the same type although it logs
  that it exists (`sylar/config.h:370-386`): the contract of `Registry.VarRegistry.Lookup`.
- Two concurrent `setValue` calls may announce the same old value
  (`sylar/config.h:291-304`): `SetValueRuns.StaleAnnouncement`.  On `logs` they may leave
  the loggers at another value than the variable: `Announcements.OverlapMismatch`,
  `LogsRuns.LoggersMatchIff`, `LogsRuns.SerialCallsMatch`.
- Two such calls may be inside the reconciling listener together, since listeners run under
  a shared lock, and mix their operations on one logger (`sylar/config.h:293-300`,
  `sylar/log.cc:495-526`): `MixedCalls.CallsMix`, `LogsRuns.LoggersAddUp`,
  `LogsRuns.CallsApartRefine`.
- Listeners that set each other's variable, or their own, deadlock, as they run under the
  variable's read lock (`sylar/config.h:293-303`): `Locks.MutualListenersDeadlock`,
  `Locks.OwnListenerDeadlocks`.
- The reopen test wraps around near 2^64 (`sylar/log.cc:260`): `Throttle.NeverBackIff`.

## Model

| member | source | states |
|---|---|---|
| Pattern.LexTiles | sylar/log.cc:336-404 | For every pattern the source spans of the pieces read tile the text: no gap, no overlap, no reordering. |
| Pattern.IsAlphaIff | sylar/log.cc:354-354 | A directive's name is made of the letters of the alphabet, small and capital, and nothing else. |
| Pattern.FirstIffFits | sylar/log.cc:337-394 | For each kind of piece, the exact condition on the following text under which the scanner reads that piece back from its own text. |
| Pattern.LexInvertsText | sylar/log.cc:336-404 | Reading the text of a list of pieces gives the list back iff the list is well-formed; so reading is a bijection between strings and well-formed lists. |
| Pattern.LexWellFormed | sylar/log.cc:336-404 | Whatever is read is well-formed. |
| Pattern.UnclosedIff | sylar/log.cc:369-377 | A directive is left unclosed iff some `%` of the text is followed by letters and a `{` with no `}` anywhere after; a `%` inside a closed format never counts. |
| Compiler.FailedIff | sylar/log.cc:395-433 | `m_error` ends up true iff the text leaves some brace unclosed or a directive's name is not in the item table. |
| Formatter.ScanDirective | sylar/log.cc:348-386 | The nested loops end, stay in bounds, never pass the end by more than one, and find exactly the directive the pattern has at `i`, ending right behind it, or report an unclosed brace exactly when there is one. |
| Formatter.ScanPattern | sylar/log.cc:334-404 | The outer loop ends on every string and leaves in `vec` and `m_error` what the reading of the pattern compiles to. |
| Formatter.BuildItems | sylar/log.cc:405-435 | One item for each triple, in order; `m_error` is set iff some directive name is unknown. |
| Formatter.LogFormatter.constructor | sylar/log.cc:321-323 | A new formatter holds its pattern, the compiled items and the error flag. |
| Formatter.LogFormatter.Format | sylar/log.cc:325-331 | The text is the items' texts in order; `Decimals.DirectivesWrite` says what each of them is. |
| Decimals.DirectivesWrite | sylar/log.cc:74-178 | What each of the eleven directives writes: content, file, logger name, level name, newline, tab, the time by `strftime` with the default format for an empty one, and line, elapsed time, thread and fiber as decimal numbers. |
| Decimals.UnknownWritten | sylar/log.cc:427-429 | A name outside the table is written as the error text that names it. |
| Decimals.DigitsIff | sylar/log.cc:94-101 | The text of a natural number is the one without superfluous zeros that, read from left to right in base ten, gives the number. |
| Decimals.DecimalIff | sylar/log.cc:94-101 | A negative number is written as a minus sign and the numeral of its absolute value, and nothing else is. |
| RoundTrip.ParserInvertsPrinterIff | sylar/log.cc:333-436 | A list of triples, printed as a pattern, compiles to exactly that list with nothing pending iff it is spellable (literals non-empty, `%` only at their end, a directive after each; alphabetic names; formats without a closing brace; a bare directive not running into what follows); it then fails iff some name is unknown. |
| RoundTrip.PrinterInvertsParserIff | sylar/log.cc:336-404 | For every pattern without an unclosed brace, the emitted triples printed in order, followed by the pending text, spell the pattern iff nowhere in the text, outside formats that are closed further on, a `%`, letters and `{}` follow one another. |
| RoundTrip.FormatRefinesDirect | sylar/log.cc:325-435 | Without unclosed braces, compiled output followed by the pending text is what a direct recursive reading of the pattern writes, for every event; the two are equal iff the pattern is empty or, in its text, a directive outside closed formats reaches to the end. |
| Places.EmptyFormatIff | sylar/log.cc:348-386 | Some directive read has an empty format iff the text has a `%`, letters and `{}` in a row outside formats that are closed further on. |
| Places.EndsInDirectiveIff | sylar/log.cc:341-386 | The last piece read is a directive iff some `%` outside closed formats is followed by letters alone, or by letters and a format whose only `}` is the last character. |
| RoundTrip.PendingIff | sylar/log.cc:387-403 | Nothing is pending after reading iff the last piece is a directive. |
| RoundTrip.TrailingTextLost | sylar/log.cc:400-404 | The pattern `x` compiles to nothing and writes nothing, while read directly it means `x`. |
| RoundTrip.LiteralsKeptOnceIff | sylar/log.cc:387-403 | The literal tokens' texts with the pending text spell every literal character once, in order, with a marker for each unclosed brace, iff no unclosed brace follows literal text without a directive in between. |
| RoundTrip.TextWrittenTwice | sylar/log.cc:395-403 | A pattern on which text before an unclosed brace is emitted twice, after the error marker. |
| Pattern.PercentIff | sylar/log.cc:341-346 | The scanner meets a `%%` iff some `%%` of the text lies outside every format that is closed further on. |
| RoundTrip.EscapeReadAsIntendedIff | sylar/log.cc:341-346 | The pattern is read as the comment on `%%` says iff every `%%` of the text lies in a format that is closed further on. |
| RoundTrip.EscapeExample | sylar/log.cc:341-346 | `%%d` is read as a `%` and then the directive `d`. |
| DefaultFormat.DefaultLine | sylar/log.cc:184-186 | Without configuration a line holds time, thread, fiber, level, logger name, file, line and message in this order with their separators, its numbers in decimal: the default pattern through scanner, item table and items. |
| DefaultFormat.DefaultTokens | sylar/log.cc:184-186 | The default pattern compiles without error to its twenty directives and literals, with nothing pending. |
| Logging.LogAppender.Log | sylar/log.cc:257-303 | An appender writes one formatted line iff the level lets the event through; a file appender reopens first iff the event's time is at least the last time plus three, modulo 2^64, and only then moves its last time. |
| Logging.LogAppender.SetFormatter | sylar/log.h:170-174 | The formatter is stored and counts as the appender's own iff it is not null. |
| Logging.Logger.AddAppender | sylar/log.cc:206-214 | The appender goes last; without a formatter it takes the logger's and counts as inheriting; the inheritance invariant survives iff it came without a formatter, with its own, or with the logger's. |
| Logging.Logger.DelAppender | sylar/log.cc:216-220 | The first occurrence is removed, if any; the inheritance invariant is kept. |
| Logging.Logger.ClearAppender | sylar/log.h:262-265 | No appenders are left and nothing else of the logger changes; the inheritance invariant holds. |
| Logging.Logger.SetFormatter | sylar/log.h:242-252 | Every inheriting appender gets the new formatter, an own formatter is never overwritten, no appender changes its kind; the inheritance invariant is kept. |
| Logging.Logger.SetPattern | sylar/log.h:253-257 | A pattern that does not compile changes nothing; one that does reaches the logger and exactly the inheriting appenders. |
| Logging.Logger.Log | sylar/log.cc:222-235 | The trace grows by exactly what the logger's own appenders do, or the root's if it has none, when the logger's level lets the event through, and by nothing otherwise; its lines are those delegated. |
| Logging.Logger.LogEach | sylar/log.cc:226-230 | Each attached appender is asked once, in list order: the whole trace with its reopens, and every appender's last time afterwards. |
| Logging.ServeWrites | sylar/log.cc:257-303 | Besides the lines, serving an event only reopens files. |
| Logging.WritesIff | sylar/log.cc:226-230 | An appender writes for an event iff it is attached and its own level lets the event through. |
| Logging.OutletText | sylar/log.cc:265-301 | The line an appender writes is the output of its formatter's pattern for that event. |
| Logging.SilentDelegates | sylar/log.cc:223-233 | Logging through a logger with level 0 and no appenders does what logging through the root does, reopens included. |
| Logging.NewRoot | sylar/log.cc:629-632 | The root logger starts with one standard-output appender that inherits the default formatter. |
| Logging.LoggerManager.constructor | sylar/log.cc:629-634 | The manager starts with exactly the root logger, filed under its name. |
| Logging.LoggerManager.GetLogger | sylar/log.cc:645-656 | A known name gives the same logger; a new name gives a fresh logger that delegates to the root; every logger stays filed under its own name and no appender is shared. |
| Logging.LoggerManager.LogThrough | sylar/log.cc:222-235 | For every logger a manager can hold, the trace grows by exactly what the appenders do that the event is delegated to, reopens included; and no logger or appender changes in what can be seen of it. |
| LogConfig.NewAppender | sylar/log.cc:501-515 | The appender of a definition: kind, file and level from the definition, an own formatter iff the definition's text is set and compiles. |
| LogConfig.ConfigureLogger | sylar/log.cc:495-517 | A logger that showed `v` shows afterwards what the definition makes of `v`: level, pattern, and the defined appenders in order, all fresh and properly inheriting. |
| LogConfig.AddAppenders | sylar/log.cc:500-517 | The loop over the definition's appenders attaches one matching appender for each, in order. |
| LogConfig.RetireLogger | sylar/log.cc:523-525 | Level 0, no appenders, the pattern kept. |
| LogConfig.Configure | sylar/log.cc:486-517 | Configuring the logger of one name: every logger stays the object it was, and all others keep their views and the very formatters and appenders they had. |
| LogConfig.Retire | sylar/log.cc:521-526 | Retiring the logger of one name: every logger stays the object it was, and all others keep their views and the very formatters and appenders they had. |
| LogConfig.Announce | sylar/log.cc:481-481 | The announcement adds to the trace exactly what the appenders do that the root logger has at that moment, reopens included; nothing but last times of appenders is changed. |
| LogConfig.AnnouncedAtInfo | sylar/log.cc:481-481 | The announcement has the level whose name is INFO. |
| LogConfig.OnLogsChanged | sylar/log.cc:480-528 | The listener on the heap: one announcement through the root logger as it was, which is all it adds to the trace; then all loggers show what the two loops make of what they showed; every logger stays the object it was, and one whose definition is unchanged, or missing in both values, keeps its very formatter and appenders. |
| Reconciling.ReconcileAt | sylar/log.cc:480-528 | What the two loops do to one name, independent of the order of all others: configured if its definition is new or changed, retired if gone, untouched otherwise. |
| Reconciling.ReconcileCorrect | sylar/log.cc:480-528 | If the loggers match the old configuration they match the new one afterwards, though equal definitions were skipped; a name that is gone has level 0 and no appenders; all others are unchanged. |
| Reconciling.MatchesIffStable | sylar/log.cc:495-517 | A logger matches a definition iff configuring it again would change nothing. |
| LogConfig.FindIff | sylar/log.cc:483-493 | In a set ordered by name, looking a definition up by name finds an equal one iff the definition is in the set. |
| Reconciling.HistoryFreeIff | sylar/log.cc:496-498 | The definition alone decides the logger's state iff its formatter text is usable or the logger has the default pattern. |
| Reconciling.IncrementalEqualsFresh | sylar/log.cc:480-528 | With a usable formatter, reconciling step by step ends where configuring a fresh logger would. |
| Reconciling.RunLogsCorrect | sylar/config.h:291-304 | Over every run of settings of `logs`, the loggers match the last one; names configured at some time but no longer are silent; all others are untouched. |
| Reconciling.RunPatterns | sylar/log.cc:496-498 | Over every run the pattern of every logger is the last usable formatter text it was given, or the one it had; unusable texts, retirement and skipped definitions leave no trace. |
| Reconciling.KeptFormatter | sylar/log.cc:496-498 | Two configurations after which a logger with an empty formatter text has the first one's pattern, where the second alone gives the default. |
| Reconciling.DroppedLogsThroughRoot | sylar/log.cc:519-526 | A logger the configuration has dropped logs exactly as the root does, reopens included. |
| Yaml.ListAllMember | sylar/config.h:20-32 | What is appended to the output list, in order, for every tree; `Routes.ListedIff` says which nodes, under which paths. |
| Routes.ListedIff | sylar/config.h:20-32 | The listing is, in pre-order and as often as there are ways, exactly the nodes that keys lead to, each under the path its keys spell with dots between them, as far as that path is valid. |
| Routes.ListedByKeys | sylar/config.h:27-30 | In a tree whose keys are not empty and hold no dots, a path is listed with exactly the nodes that its pieces between the dots lead to, key by key. |
| Routes.KeysBack | sylar/config.h:29-29 | Splitting a spelled path at its dots gives the keys back, if they are not empty and hold no dots. |
| Yaml.PathCharIff | sylar/config.h:21-21 | The characters allowed in a path are those of the literal in the source, and no others. |
| Yaml.FlattenIsFilter | sylar/config.h:20-32 | Stopping at an invalid prefix loses nothing: the listing is the pre-order list of all dotted paths filtered by validity. |
| Yaml.ListedPathsAreLower | sylar/config.h:348-350 | Lowering a listed path changes nothing. |
| Config.ConfigVar.SetValue | sylar/config.h:291-304 | An equal value does nothing; another is announced to every listener in map order with the old value, and then stored. |
| Config.ConfigVar.AddListener | sylar/config.h:306-312 | The listener gets the next id of the shared counter and goes last. |
| Config.ConfigVar.DelListener | sylar/config.h:313-318 | Exactly the listener with that id is removed. |
| Config.ConfigVar.FromString | sylar/config.h:277-286 | A text that converts is set; one that does not changes nothing and is reported. |
| Config.WithoutKeeps | sylar/config.h:313-318 | Removing a listener keeps exactly the others, in registration order. |
| Config.IdsNeverReused | sylar/config.h:306-323 | Over any mix of operations listeners stay in registration order and an id that is gone never comes back. |
| Config.NotificationChain | sylar/config.h:291-304 | A listener that stays registered through a run is told exactly the actual changes, once each, forming a chain from the first value to the last. |
| Config.CallsAre | sylar/config.h:299-301 | A changed value is announced to exactly the registered listeners, once each, in the order they were registered in; nothing else is announced and no call is taken back. |
| Config.RemovedHearNothing | sylar/config.h:313-323 | A listener removed alone or with all others is never told anything again, whatever follows. |
| Config.AddedHearAll | sylar/config.h:306-312 | A listener that is added gets an id of its own and is told every change from then on. |
| Registry.VarRegistry.LookupBase | sylar/config.h:336-341 | In a valid registry, the result is the one registered variable that carries the name itself, and there is none only if no registered variable carries it. |
| Registry.VarRegistry.Lookup | sylar/config.h:366-387 | Another type is refused and an invalid new name throws, without effect; otherwise a fresh variable with the default and no listeners is registered, even in place of one of the same type. |
| Registry.VarRegistry.LoadFromYaml | sylar/config.h:342-363 | Every variable ends as if the nodes at its own path alone had been set in order, whatever the rest of the tree holds. |
| Registry.VarRegistry.LoadItem | sylar/config.h:347-361 | One node changes at most the variable of its path. |
| Registry.LoadedValue | sylar/config.h:277-286 | After loading, a variable holds the last text that converts, or its old value if none does, and its listeners are unchanged. |
| Registry.TextsForIs | sylar/config.h:353-359 | The texts a variable is given come from exactly the nodes at its path: a scalar's own text, any other node's emitted text. |
| Registry.HandedIff | sylar/config.h:342-363 | In a tree of plain keys, loading hands a variable exactly the nodes that the pieces of its name between the dots lead to from the root, key by key. |
| DefineCast.CastAppenders | sylar/log.cc:551-588 | The loop reads the appender entries in order, keeping those that describe an appender and skipping the others, and throws where an entry throws; `DefineReads.AppendersFromIff` says which are which. |
| DefineCast.CastSet | sylar/config.h:110-125 | The loop inserts the definitions one by one; the result is the ordered set, or the exception of the first definition that throws. |
| DefineReads.AppenderFromIff | sylar/log.cc:553-585 | For every node: an entry is read as an appender iff it has the type FileLogAppender and a file, or the type StdoutLogAppender, with formatter and level as given or, if missing, empty and unknown. |
| DefineReads.SkippedIff | sylar/log.cc:554-584 | An entry is skipped iff it has no type, an unknown one, or the file type without a file; it throws iff it is neither skipped nor describes an appender. |
| DefineReads.AppendersFromIff | sylar/log.cc:552-587 | The list read is exactly the entries that describe an appender, in order, every other entry being one that is skipped. |
| DefineReads.DefineFromIff | sylar/log.cc:539-591 | For every node: it is read as a definition iff it has that name, level, formatter and list of appenders, the last three as given or, if missing, unknown and empty. |
| DefineReads.SetFromIff | sylar/config.h:110-125 | A node is read as a set iff every item is read as a definition; the set is ordered by name and holds, of the definitions of a name, exactly the first. |
| DefineReads.LevelFromIff | sylar/log.cc:31-47 | A text is read as a level iff it is the level's name in capital or in small letters; every other text is level 0. |
| Basics.StringLessIff | sylar/log.cc:467-469 | One name comes before another iff it is a proper beginning of it or has the lesser character at the first difference. |
| DefineCast.DefineSound | sylar/log.cc:536-591 | A definition that is read has only appender kinds 1 and 2, and a file only for kind 1. |
| DefineCast.InsertKeeps | sylar/config.h:121-121 | Inserting keeps the set ordered by name and adds the definition iff its name was not there. |
| DefineCast.SetFromIs | sylar/config.h:110-125 | A set that is read is ordered, sound, and holds for every name the first definition given for it. |
| DefineCast.ReadSetsAreSafe | sylar/log.cc:500-517 | Whatever the tree, the listener never meets an appender it cannot create, and each name keeps its first definition. |
| DefineCast.DefineReadsBackIff | sylar/log.cc:536-591 | A definition written in the layout the caster reads is read back field by field iff it is sound. |
| DefineCast.SetReadsBackIff | sylar/config.h:110-125 | A set of definitions written as a list is read back iff all its definitions are sound. |
| LogsVariable.FromText | sylar/config.h:110-125 | A text that converts gives an ordered set the listener can apply. |
| LogsVariable.FromTextIff | sylar/config.h:110-125 | A text converts to a set iff it loads, every item asks for a definition, and the set holds exactly the first definition of every name. |
| LogsVariable.Register | sylar/log.cc:474-480 | Registering the empty variable `logs` and its reconciling listener leaves value, loggers and registry fitting together, whatever loggers there are. |
| LogsVariable.LogsVar.SetValue | sylar/config.h:291-304 | Setting the registered variable `logs` makes the one call its reconciling listener gets and keeps the loggers matching its value; a change, and nothing else, is announced through the root logger, and that is all the trace gains; loggers stay the objects they were, and those with an unchanged definition keep what they hold. |
| LogsVariable.LogsVar.LoadTexts | sylar/config.h:277-286 | Setting `logs` from several texts is a run over those that convert; the others change neither the variable nor a logger; loggers whose definition never changes keep their objects. |
| LogsVariable.LogsVar.LoadNode | sylar/config.h:347-361 | One node changes at most the variable of its path; if that is `logs`, the reconciling listener is run on the call it gets, and the loggers match the new value. |
| LogsVariable.LogsVar.LoadTree | sylar/config.h:342-363 | On one heap: loading any tree leaves every variable of the registry as if its own nodes alone had been set, and the loggers match the last convertible `logs` node, or the value there was; loggers whose definition never changes keep their objects. |
| LogsVariable.RegistryAgrees | sylar/config.h:342-363 | What the variable tells the reconciling listener over a whole load, replayed call by call on the loggers' views, leaves them as the run of the converted texts does, and the variable at the same value. |
| Throttle.ReopenBound | sylar/log.cc:257-280 | For event times in any order, without wrap-around, the last reopen time never goes back, never passes the latest time seen, and each reopen takes three seconds more. |
| Throttle.NeverLate | sylar/log.cc:258-265 | Without wrap-around every event that passes is less than three seconds past the last reopen when it is written. |
| Throttle.LogSequence | sylar/log.cc:257-280 | Over any events logged one after the other, a file appender's last time and its reopens in the trace follow the arrivals of the events that pass its level. |
| Throttle.LogThrottled | sylar/log.cc:257-280 | Over any events logged by a file appender, without wrap-around: the last time moves exactly when a passing event is at least three seconds past it, to that event's time; the trace gains a reopen for each such move, before the line, and a line for each passing event, in order; so reopens take three seconds each and no event is written later than that past one. |
| Throttle.OpenedBeforeWritingIff | sylar/log.cc:258-265 | A fresh file appender opens its file before its first write iff its first event is not in the first three seconds of the epoch. |
| Throttle.NeverBackIff | sylar/log.cc:260-262 | The last reopen time can go back iff adding three to it wraps around. |
| Casts.CastElems | sylar/config.h:44-125 | The loop of the vector, list and set casts from text computes the cast that `ContainerReads.VectorIff` and `ContainerReads.SetIff` describe. |
| ContainerReads.VectorIff | sylar/config.h:44-93 | For every text: a vector or list is read iff the text loads and its items, each emitted and cast, are the elements in order. |
| ContainerReads.SetIff | sylar/config.h:110-125 | Given an order as std::set asks for, the set read from any text is ascending and holds exactly the first of the items equivalent to each other. |
| ContainerReads.MapIff | sylar/config.h:176-190 | The map read from any text has ascending keys and for every key exactly the first value given; a node without entries gives the empty map. |
| ContainerReads.ElemsThrowIff | sylar/config.h:44-125 | The vector, list and set casts throw iff the text does not load or some item cannot be cast. |
| ContainerReads.MapThrowsIff | sylar/config.h:176-190 | The map cast throws iff the text does not load, some value cannot be cast, or the node is a sequence with items. |
| ContainerReads.ElemsWrittenIff | sylar/config.h:62-139 | A vector, list or set is written as the sequence node of its values, each cast to text and loaded, and an empty one as the null node. |
| ContainerReads.DictWrittenIff | sylar/config.h:193-205 | A map is written as the map node of its keys and values, each value cast to text and loaded. |
| Casts.ContainersSurvive | sylar/config.h:43-205 | Every value of every nesting of vectors, lists, sets and string-keyed maps survives cast, load, emit and cast back, if the element values do. |
| Casts.ContainerRoundTrip | sylar/config.h:43-205 | Casting a container to text and the text back gives the container again. |
| Locks.OperationsAscend | sylar/log.cc:188-303 | In every operation each nested lock has a strictly higher rank than all locks held: registry, the variables in any order chosen for them, manager, logger, root, appender. |
| Locks.OperationsTake | sylar/log.cc:188-303 | Every operation locks exactly the objects it works on, exclusively, and shared those it only looks at or calls user code about; everything else is what callbacks lock. |
| Locks.LoggerCallbacksRespectful | sylar/log.cc:480-528 | A listener made of logger operations, such as the reconciling one, may run under the variable's read lock. |
| Locks.Progress | sylar/mutex.h:164-224 | As long as some thread is unfinished, some thread can step, whether the lock lets readers pass waiting writers or not. |
| Locks.RunsNeverDeadlock | sylar/mutex.h:164-224 | Over every schedule, under both policies, the exclusion and rank invariants hold, the run can go on until all threads have finished, and it ends. |
| Locks.OperationsNeverDeadlock | sylar/config.h:277-405 | Any number of threads running any of the modelled operations, with callbacks that set variables only in ascending order, never deadlock under either policy, exclude each other, and finish after exactly as many steps as the operations have. |
| Locks.MutualListenersDeadlock | sylar/config.h:293-303 | A run in which two threads whose listeners set each other's variable end up stuck; no order of the variables admits both listeners. |
| Locks.NoOrder | sylar/config.h:293-303 | An order admits a listener that sets another variable only if that one comes later, so no order admits two that set each other's. |
| Locks.OwnListenerDeadlocks | sylar/config.h:293-303 | A listener that sets its own variable blocks its thread on the lock the call itself holds. |
| Guards.ScopedGuard.constructor | sylar/mutex.h:34-37 | A new guard holds its mutex. |
| Guards.ScopedGuard.Lock | sylar/mutex.h:42-47 | Locking a guard that is locked does nothing. |
| Guards.ScopedGuard.Unlock | sylar/mutex.h:38-54 | Unlocking, early or in the destructor, gives the mutex back once. |
| Guards.MayLockIff | sylar/mutex.h:165-187 | A read-write lock may be taken iff that leaves one writer alone or readers only; readers share it, a writer keeps everyone out, and unlocking restores it. |
| Guards.GuardsBalance | sylar/mutex.h:30-121 | Whatever is done with a guard in its lifetime, the mutex is held exactly while `m_locked` is set, and ends as it was found. |
| SetValueRuns.StepKeeps | sylar/config.h:291-323 | Each step of each thread keeps the invariant: exclusion, ordered ids, a variable that is what the events made of it, and for every thread in its read phase the value, the listeners it met when it began, and the call it is inside of. |
| SetValueRuns.ConcurrentSetValueIsFair | sylar/config.h:291-323 | Over every interleaving, in which other variables may use up ids: a call ends without effect only if the variable has its value; a listener told is registered and told the value at that moment and a different new one; a value is stored only after exactly the listeners registered when the call began were told, once each, in id order; a new listener has an id above all before it. |
| SetValueRuns.RunsGoOn | sylar/config.h:291-323 | No interleaving gets stuck: while a call or an edit is under way one of them can go on, and when none is, every thread can begin any call and any edit. |
| SetValueRuns.IdsTaken | sylar/config.h:306-312 | Over every interleaving each listener added, at this variable or another of the type, takes one id of the shared counter. |
| SetValueRuns.StaleAnnouncement | sylar/config.h:293-303 | A run from the start in which two overlapping calls announce the same old value and the last store replaces a value its call never announced. |
| LoggerSteps.Execute | sylar/log.cc:495-526 | Each of these operations, on a logger, does to it what the step does to its view. |
| LoggerSteps.ScriptReconciles | sylar/log.cc:480-528 | Uninterrupted, the locked operations the listener makes, one by one, come to what its two loops do. |
| LoggerSteps.OpsAddUp | sylar/log.h:240-265 | In whatever order setLevel, setFormatter, clearAppender and addAppender reach a logger, it shows the last level set, the last usable pattern, and the appenders added since the last clear, behind those it had if there was none. |
| LogsRuns.CallsApartRefine | sylar/config.h:293-300 | In a run in which no call of the listener starts while another is open, the interleaved operations refine whole calls: with none open, the loggers show what the announcements, reconciled one after the other, come to, and the history is fair. |
| LogsRuns.ViewsFollow | sylar/log.cc:480-528 | From loggers that match the variable, in every run of threads and listener operations in which no call of the reconciling listener starts while another is open, and with none open: every logger shows the definition last announced for its name, is silent if that announcement took it away, and is untouched otherwise. |
| LogsRuns.LoggersMatchIff | sylar/config.h:291-304 | In every such run in which the listener stays registered, the loggers match the variable iff, for each definition in its value, the one last announced for its name has the same level and appenders, and any usable formatter text of it is the last usable one announced: a condition on announcements and definitions alone. |
| Announcements.AnnouncedMatchIff | sylar/config.h:291-304 | The same condition for any fair history whose announcements are dealt with one after the other. |
| LogsRuns.SerialCallsMatch | sylar/config.h:291-304 | When no setting begins during another, the loggers match the variable whenever none is under way, whichever threads made the calls. |
| LogsRuns.LoggersAddUp | sylar/log.cc:480-528 | In every run, however calls of the listener overlap, the operations done are the threads' scripts, each in its own order, and every logger shows what the operations on it add up to. |
| MixedCalls.CallsMix | sylar/config.h:293-300 | Two threads set `logs` to definitions of one name with one appender each; their listener calls overlap, and the run leaves the logger with both appenders, matching neither definition and not the variable. |
| Announcements.OverlapMismatch | sylar/config.h:291-304 | For any two definitions of one name with different levels, a run of two overlapping calls that leaves the variable at one and the logger at the other; setting the variable to its value again changes nothing. |
| Threads.NothingLost | tests/test_thread.cc:17-22 | Over every interleaving of guarded increments, the count plus what is left to do stays the same, and each step leaves one step less. |
| Threads.GuardedCounter | tests/test_thread.cc:17-22 | n threads of k guarded increments each: no interleaving takes more than 3 * n * k steps, one that has taken fewer can go on, and one that has taken them all ends at n * k. |
| Threads.StartHandshake | sylar/thread.cc:14-62 | A constructor that has returned leaves `m_id` set and `m_cb` taken; the callback runs at most once and only after the notify; a run that cannot go on has ended after exactly eight turns with the constructor returned and the callback run, or because creating the thread failed, and only then. |

## Left out

- A second call of `LogFormatter::init`, which is public and would append the items again; the formatter here is compiled once, by its constructor.
- The lines the code prints about itself: messages to `std::cout`, and the log lines of `ListAllMember`, `Lookup`, `fromString` and `toString` (`sylar/config.h:22`, `sylar/config.h:273-283`, `sylar/config.h:372-380`).  Their locks are in `Locks`.
- Stream failure and the content of files; `World` keeps only the trace of lines and reopens.
- yaml-cpp text syntax, `boost::lexical_cast`, `strftime`, `localtime_r` and `vasprintf`: parameters, with `Load(Emit(n)) == n` where a cast emits a node and loads it again.  A null or map node read as a string counts as an exception.
- `isalpha` and `tolower` outside the "C" locale.
- The printer of `LogDefine` and the `toYamlString` methods (`sylar/log.cc:188-205`, `sylar/log.cc:282-319`, `sylar/log.cc:593-644`): the printer does not invert the parser; only their locks are modelled.
- The `unordered_set` cast from text, which inserts into a vector and cannot be instantiated, and the order of `unordered_map`.
- Wrap-around of the 64-bit listener ids.
- Exceptions thrown by listeners or by comparing values.
- One registry holding variables of many C++ types: the values of a registry share one type parameter here, and a tag stands for the type.
- `getValue`, `toString`, `Visit`, `Lookup` without a default, `pushLogger` and `eraseLogger`: easy members; the first four appear in `Locks`.
- Unsynchronised access to the manager's map: looking up and creating a logger is one step.
- Appenders attached to two loggers, or twice to one: `AddAppender` records the owner, and the inheritance invariant speaks of appenders attached to one logger.
- LogsRuns.LoggersAddUp: looking up or creating a logger is one step with the listener's first operation on it, and the listener's announcement line is not among the steps.
- SetValueRuns.StepKeeps: one increment of the shared id counter, which other variables' mutexes do not protect, is one step.
- LogsVariable.LogsVar.LoadNode: the listener runs right after the node's value is stored, not just before; it does not read the variable.
- Throttle.LogSequence: the loop over events stands for any client of one appender; the source has no such loop.
- Locks.OperationsNeverDeadlock: user callbacks are assumed to lock only above the lock they run under, in some order of the variables; `Locks.MutualListenersDeadlock` shows why.
- Threads.StartHandshake: thread names, `join`, detaching in the destructor, and reuse of the semaphore after the start are not modelled.
- The null mutexes, the inside of pthread, dispatch and `os_unfair_lock`, singletons, `util.cc` and the build files.
