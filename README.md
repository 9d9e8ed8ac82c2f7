# file-watch endpoint configuration, in Dafny

This project models the configuration side of Apache Camel's `file-watch`
endpoint, `FileWatchEndpoint`. The endpoint is a class with six mutable
options, and each option has a declared default:

- `path`
- `events`
- `autoCreate`
- `concurrentConsumers`
- `antInclude`
- `queueSize`

It has plain getters and setters and three constructors. The no-argument
form and the `(uri, component)` form share `constructor()`, because `uri` and
`component` only reach the framework. `createProducer`
always throws, and `isMultipleConsumersSupported` always answers true.

The one piece with real logic is `setEvents(String)`. It parses a
comma-separated list of event names into a set of `FileEventEnum` constants
(CREATE, MODIFY, DELETE). The model follows Java's own library semantics for
that parse:

- `String.split(",")` drops trailing empty strings, so `","` gives no tokens.
- `split` keeps leading and interior empty strings, so `",CREATE"` gives `["", "CREATE"]`.
- A string without a comma is one token, so `""` gives `[""]`.
- `String.trim()` strips every character at or below U+0020.
- `Enum.valueOf` matches names exactly and is case-sensitive.

The loop collects the constants into a set and assigns the field only after
the loop. So an unknown token throws and leaves `events` as it was. A list
with no tokens means all three events.

Files:

- `wrappers.dfy` (module `Wrappers`): `Option` stands for a nullable reference, and `Result`/`Outcome` stand for a thrown exception.
- `java_strings.dfy` (module `JavaStrings`): `trim()` and `split(",")`, with their characterisations and round trips.
- `file_events.dfy` (module `FileEvents`): the event enum with `name()`, `valueOf` and `values()`.
- `events_parsing.dfy` (module `EventsParsing`): what `setEvents(String)` computes. This is stated as functions over tokens, with lemmas for success, failure, order and repetition independence, idempotence and the render/parse round trip.
- `file_watch_endpoint.dfy` (module `FileWatch`): the class `Endpoint`, with the six fields. Its setters state the endpoint's entire new state. `SetEventsText` is the parsing loop, proved against `EventsParsing.ParseEvents`.

Points of the code worth noting:

- The setters do not validate. A zero or negative `concurrentConsumers` or `queueSize` is stored as given.
- `antInclude` starts as null (`None`). The "match everything" default `**` is only annotation metadata, and no field initialiser sets it.
- `setEvents(Set)` stores an empty set as is. The all-events fallback belongs only to the string parser.

## Model

| member | source | states |
|---|---|---|
| `JavaStrings.Trim` | components/camel-file-watch/src/main/java/org/apache/camel/component/file/watch/FileWatchEndpoint.java:109 | the trimmed token is no longer than the input, and it neither starts nor ends with a character at or below U+0020 |
| `JavaStrings.TrimStartSuffix` | components/camel-file-watch/src/main/java/org/apache/camel/component/file/watch/FileWatchEndpoint.java:109 | stripping leading characters removes a prefix made only of trim characters |
| `JavaStrings.TrimEndPrefix` | components/camel-file-watch/src/main/java/org/apache/camel/component/file/watch/FileWatchEndpoint.java:109 | stripping trailing characters removes a suffix made only of trim characters |
| `JavaStrings.TrimSpec` | components/camel-file-watch/src/main/java/org/apache/camel/component/file/watch/FileWatchEndpoint.java:109 | `trim()` returns a contiguous middle part of its input, and only trim characters lie on either side of it |
| `JavaStrings.TrimPadded` | components/camel-file-watch/src/main/java/org/apache/camel/component/file/watch/FileWatchEndpoint.java:109 | a non-empty word with visible end characters, padded on both sides with trim characters, trims back to the word |
| `JavaStrings.Pieces` | components/camel-file-watch/src/main/java/org/apache/camel/component/file/watch/FileWatchEndpoint.java:106 | splitting on every comma gives at least one piece, and no piece contains a comma |
| `JavaStrings.JoinPieces` | components/camel-file-watch/src/main/java/org/apache/camel/component/file/watch/FileWatchEndpoint.java:106 | joining the comma-separated pieces of a string with commas gives back the string |
| `JavaStrings.PiecesJoin` | components/camel-file-watch/src/main/java/org/apache/camel/component/file/watch/FileWatchEndpoint.java:106 | comma-free pieces joined with commas split back into the same pieces, empty ones included |
| `JavaStrings.DropTrailingEmpty` | components/camel-file-watch/src/main/java/org/apache/camel/component/file/watch/FileWatchEndpoint.java:106 | the result is a prefix of the input, everything cut off is empty, and the result does not end with an empty string |
| `JavaStrings.Split` | components/camel-file-watch/src/main/java/org/apache/camel/component/file/watch/FileWatchEndpoint.java:106 | `split(",")`: without a comma the result is the whole input as one token; otherwise it is the comma-separated pieces with only trailing empty ones dropped; no token contains a comma |
| `JavaStrings.SplitJoin` | components/camel-file-watch/src/main/java/org/apache/camel/component/file/watch/FileWatchEndpoint.java:106 | round trip: comma-free tokens whose last one is non-empty, joined with commas, split back into exactly those tokens |
| `JavaStrings.SplitEmpty` | components/camel-file-watch/src/main/java/org/apache/camel/component/file/watch/FileWatchEndpoint.java:106 | `"".split(",")` is `[""]` |
| `JavaStrings.SplitLoneComma` | components/camel-file-watch/src/main/java/org/apache/camel/component/file/watch/FileWatchEndpoint.java:106 | `",".split(",")` has no tokens |
| `JavaStrings.SplitLeadingComma` | components/camel-file-watch/src/main/java/org/apache/camel/component/file/watch/FileWatchEndpoint.java:106 | `",CREATE".split(",")` keeps the leading empty token |
| `JavaStrings.SplitTrailingCommas` | components/camel-file-watch/src/main/java/org/apache/camel/component/file/watch/FileWatchEndpoint.java:106 | `"CREATE,,".split(",")` drops the trailing empty tokens |
| `JavaStrings.SplitCommaSpace` | components/camel-file-watch/src/main/java/org/apache/camel/component/file/watch/FileWatchEndpoint.java:106 | `"CREATE, DELETE".split(",")` is `["CREATE", " DELETE"]`: the space after the comma stays in the second token |
| `FileEvents.NameIsToken` | components/camel-file-watch/src/main/java/org/apache/camel/component/file/watch/FileWatchEndpoint.java:44-46 | each constant's name is non-empty, comma-free and already trimmed, so it can appear in the option's comma-separated list |
| `FileEvents.ValueOf` | components/camel-file-watch/src/main/java/org/apache/camel/component/file/watch/FileWatchEndpoint.java:109 | `valueOf` yields exactly the constant whose name equals the token; it yields nothing for any other token, including case variants and the empty string |
| `FileEvents.ValueOfName` | components/camel-file-watch/src/main/java/org/apache/camel/component/file/watch/FileWatchEndpoint.java:109 | looking up a constant's own name gives back that constant |
| `FileEvents.AllEvents` | components/camel-file-watch/src/main/java/org/apache/camel/component/file/watch/FileWatchEndpoint.java:47 | `values()` as a set holds CREATE, MODIFY and DELETE |
| `EventsParsing.Collect` | components/camel-file-watch/src/main/java/org/apache/camel/component/file/watch/FileWatchEndpoint.java:107-110 | the token loop; a thrown error always carries a token that names no constant. Its full behaviour is stated by `CollectSucceeds`, `CollectContents` and `CollectFailure` |
| `EventsParsing.ParseEvents` | components/camel-file-watch/src/main/java/org/apache/camel/component/file/watch/FileWatchEndpoint.java:106-111 | the value `setEvents(text)` assigns, or the error it throws; an assigned set is never empty, and a thrown error carries a token that names no constant. Its full behaviour is stated by `ParseEventsSuccess` and `ParseEventsFailure` |
| `EventsParsing.EventsAfter` | components/camel-file-watch/src/main/java/org/apache/camel/component/file/watch/FileWatchEndpoint.java:106-111 | the events after `setEvents(text)`: the previous value when some trimmed token of the split is not a constant name; all three constants when the split has no tokens; otherwise exactly the constants the trimmed tokens name |
| `EventsParsing.CollectSucceeds` | components/camel-file-watch/src/main/java/org/apache/camel/component/file/watch/FileWatchEndpoint.java:107-110 | the token loop completes if and only if every trimmed token is a constant name |
| `EventsParsing.CollectContents` | components/camel-file-watch/src/main/java/org/apache/camel/component/file/watch/FileWatchEndpoint.java:107-110 | a completed loop's set holds a constant if and only if some trimmed token is its name |
| `EventsParsing.CollectFailure` | components/camel-file-watch/src/main/java/org/apache/camel/component/file/watch/FileWatchEndpoint.java:108-109 | a failed loop throws for the first token that is not a constant name |
| `EventsParsing.FailureIsFinal` | components/camel-file-watch/src/main/java/org/apache/camel/component/file/watch/FileWatchEndpoint.java:108-109 | once a token has thrown, the tokens after it do not change the outcome |
| `EventsParsing.ParseEventsSuccess` | components/camel-file-watch/src/main/java/org/apache/camel/component/file/watch/FileWatchEndpoint.java:106-111 | `setEvents(text)` succeeds if and only if every trimmed token of the split is a constant name. With no tokens it assigns all three constants. Otherwise it assigns exactly the named constants. The assigned set is never empty |
| `EventsParsing.ParseEventsFailure` | components/camel-file-watch/src/main/java/org/apache/camel/component/file/watch/FileWatchEndpoint.java:106-110 | a failing `setEvents(text)` reports the first unrecognised trimmed token of the split |
| `EventsParsing.ParseEmptyText` | components/camel-file-watch/src/main/java/org/apache/camel/component/file/watch/FileWatchEndpoint.java:106-109 | `setEvents("")` throws on the empty token |
| `EventsParsing.ParseLeadingComma` | components/camel-file-watch/src/main/java/org/apache/camel/component/file/watch/FileWatchEndpoint.java:106-109 | `setEvents(",CREATE")` throws on the leading empty token |
| `EventsParsing.ParseLoneComma` | components/camel-file-watch/src/main/java/org/apache/camel/component/file/watch/FileWatchEndpoint.java:106-111 | `setEvents(",")` assigns all three events |
| `EventsParsing.CollectDependsOnTokenSet` | components/camel-file-watch/src/main/java/org/apache/camel/component/file/watch/FileWatchEndpoint.java:107-110 | two token lists with the same set of trimmed tokens both succeed or both fail; if they succeed, they build the same set |
| `EventsParsing.ParseEventsDependsOnTokenSet` | components/camel-file-watch/src/main/java/org/apache/camel/component/file/watch/FileWatchEndpoint.java:106-111 | reordered or repeated tokens give the same outcome and, on success, the same events |
| `EventsParsing.SetEventsTwice` | components/camel-file-watch/src/main/java/org/apache/camel/component/file/watch/FileWatchEndpoint.java:105-111 | applying `setEvents(text)` twice leaves the same events as applying it once |
| `EventsParsing.CollectNames` | components/camel-file-watch/src/main/java/org/apache/camel/component/file/watch/FileWatchEndpoint.java:107-110 | tokens that trim to the names of a list of constants are collected into exactly the set of those constants |
| `EventsParsing.RenderParses` | components/camel-file-watch/src/main/java/org/apache/camel/component/file/watch/FileWatchEndpoint.java:106-111 | round trip: constant names, each padded on either side with its own run of trim characters and joined with commas, parse back to exactly the listed constants |
| `EventsParsing.OrderedMembers` | components/camel-file-watch/src/main/java/org/apache/camel/component/file/watch/FileWatchEndpoint.java:106-111 | listing a set of constants in the order of the `FileEvent` constructors keeps exactly its members |
| `EventsParsing.SetRoundTrip` | components/camel-file-watch/src/main/java/org/apache/camel/component/file/watch/FileWatchEndpoint.java:106-111 | every non-empty set of events, rendered with any padding around each name (`"CREATE,DELETE"`, `"CREATE, DELETE"`, ...) and parsed, comes back unchanged |
| `EventsParsing.ParseNamedTokens` | components/camel-file-watch/src/main/java/org/apache/camel/component/file/watch/FileWatchEndpoint.java:106-111 | text whose split tokens trim to the names of a non-empty list of constants assigns exactly that list's set |
| `EventsParsing.CollectCommaSpace` | components/camel-file-watch/src/main/java/org/apache/camel/component/file/watch/FileWatchEndpoint.java:107-110 | the tokens `"CREATE"` and `" DELETE"` are collected into {CREATE, DELETE}; the space is trimmed off |
| `EventsParsing.ParseCommaSpace` | components/camel-file-watch/src/main/java/org/apache/camel/component/file/watch/FileWatchEndpoint.java:106-111 | `setEvents("CREATE, DELETE")` assigns exactly {CREATE, DELETE} |
| `FileWatch.Endpoint.constructor` | components/camel-file-watch/src/main/java/org/apache/camel/component/file/watch/FileWatchEndpoint.java:47-72 | a new endpoint has events {CREATE, MODIFY, DELETE}, autoCreate true, concurrentConsumers 1, queueSize `Integer.MAX_VALUE`, and a null antInclude and path |
| `FileWatch.Endpoint.WithRemaining` | components/camel-file-watch/src/main/java/org/apache/camel/component/file/watch/FileWatchEndpoint.java:74-77 | the URI's remaining part (null included) becomes the path, and every other option has its default |
| `FileWatch.Endpoint.CreateProducer` | components/camel-file-watch/src/main/java/org/apache/camel/component/file/watch/FileWatchEndpoint.java:79-81 | asking for a producer always throws `UnsupportedOperationException` with the message "This component does not support producer" |
| `FileWatch.Endpoint.GetPath` | components/camel-file-watch/src/main/java/org/apache/camel/component/file/watch/FileWatchEndpoint.java:88-90 | returns the stored path |
| `FileWatch.Endpoint.SetPath` | components/camel-file-watch/src/main/java/org/apache/camel/component/file/watch/FileWatchEndpoint.java:92-94 | stores the argument (null included) as the path; every other option is unchanged |
| `FileWatch.Endpoint.GetEvents` | components/camel-file-watch/src/main/java/org/apache/camel/component/file/watch/FileWatchEndpoint.java:96-98 | returns the stored events |
| `FileWatch.Endpoint.SetEvents` | components/camel-file-watch/src/main/java/org/apache/camel/component/file/watch/FileWatchEndpoint.java:100-102 | stores the given set as is, even an empty one; every other option is unchanged |
| `FileWatch.Endpoint.SetEventsText` | components/camel-file-watch/src/main/java/org/apache/camel/component/file/watch/FileWatchEndpoint.java:104-112 | the loop succeeds exactly when `ParseEvents` does, and it throws `ParseEvents`'s error otherwise. `events` becomes the parsed set, or keeps its old value on failure. Every other option is unchanged |
| `FileWatch.Endpoint.IsAutoCreate` | components/camel-file-watch/src/main/java/org/apache/camel/component/file/watch/FileWatchEndpoint.java:114-116 | returns the stored autoCreate flag |
| `FileWatch.Endpoint.SetAutoCreate` | components/camel-file-watch/src/main/java/org/apache/camel/component/file/watch/FileWatchEndpoint.java:118-120 | stores the flag; every other option is unchanged |
| `FileWatch.Endpoint.GetConcurrentConsumers` | components/camel-file-watch/src/main/java/org/apache/camel/component/file/watch/FileWatchEndpoint.java:122-124 | returns the stored consumer count |
| `FileWatch.Endpoint.SetConcurrentConsumers` | components/camel-file-watch/src/main/java/org/apache/camel/component/file/watch/FileWatchEndpoint.java:126-128 | stores any 32-bit value unvalidated; every other option is unchanged |
| `FileWatch.Endpoint.GetQueueSize` | components/camel-file-watch/src/main/java/org/apache/camel/component/file/watch/FileWatchEndpoint.java:130-132 | returns the stored queue size |
| `FileWatch.Endpoint.SetQueueSize` | components/camel-file-watch/src/main/java/org/apache/camel/component/file/watch/FileWatchEndpoint.java:134-136 | stores any 32-bit value unvalidated; every other option is unchanged |
| `FileWatch.Endpoint.GetAntInclude` | components/camel-file-watch/src/main/java/org/apache/camel/component/file/watch/FileWatchEndpoint.java:138-140 | returns the stored pattern |
| `FileWatch.Endpoint.SetAntInclude` | components/camel-file-watch/src/main/java/org/apache/camel/component/file/watch/FileWatchEndpoint.java:142-144 | stores the pattern string (null included) unvalidated; every other option is unchanged |
| `FileWatch.Endpoint.IsMultipleConsumersSupported` | components/camel-file-watch/src/main/java/org/apache/camel/component/file/watch/FileWatchEndpoint.java:151-154 | always answers true |

## Left out

- `createConsumer` and `FileWatchConsumer` (`FileWatchEndpoint.java:83-86`) are not part of this model. The consumer wraps the operating system's watch service, threads and a hand-off queue, and none of that code is shown.
- The `uri` and `component` constructor arguments, the `super(...)` calls and `getComponent` (`FileWatchEndpoint.java:70-72, 146-149`) are left out. They belong to the framework base class, which is not part of this model.
- The `@UriEndpoint`, `@UriParam` and `@Metadata` annotations are left out. So is the reflection that calls `setEvents(String)`. These are framework metadata and wiring, not logic.
- ANT-style matching against `antInclude` is left out. The endpoint only stores the pattern string.
- `FileWatch.Endpoint.SetEvents` takes a set value. Java stores the caller's mutable `Set` object itself, so later changes by the caller, or through `getEvents`, would show in the endpoint. That aliasing is not modelled. A null set is not modelled either.
- `FileWatch.Endpoint.SetEventsText` does not model a null argument, for which Java throws `NullPointerException` from `split`.
- `EventsParsing.ParseError` carries only the rejected trimmed token. It does not carry the full text of the `IllegalArgumentException` message.
- Characters are Unicode scalar values rather than UTF-16 code units. Every character that `trim()` strips is a single code unit either way, so splitting and trimming agree for all inputs without surrogates.
