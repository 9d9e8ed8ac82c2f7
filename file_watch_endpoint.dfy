/** The `file-watch` endpoint's configuration: six options with their
    declared defaults, plain getters and setters, and the setter that parses
    a comma-separated list of event names. */
module FileWatch {
  import opened Wrappers
  import opened FileEvents
  import opened EventsParsing

  /** Java's `int`. */
  newtype int32 = x: int | -0x8000_0000 <= x < 0x8000_0000

  /** `Integer.MAX_VALUE`, the default queue size ("unbounded"). */
  const IntegerMaxValue: int32 := 0x7fff_ffff

  /** An exception an endpoint operation throws. */
  datatype EndpointError = UnsupportedOperation(message: string)

  /** The values of all six options at one moment. */
  datatype Settings = Settings(
    path: Option<string>,
    events: set<FileEvent>,
    autoCreate: bool,
    concurrentConsumers: int32,
    antInclude: Option<string>,
    queueSize: int32)

  /** The options as the field initialisers declare them, with `path` given. */
  predicate IsDefault(s: Settings, path: Option<string>) {
    && s.path == path
    && s.events == AllEvents()
    && s.autoCreate
    && s.concurrentConsumers == 1
    && s.antInclude == None
    && s.queueSize == IntegerMaxValue
  }

  class Endpoint {
    var path: Option<string>
    var events: set<FileEvent>
    var autoCreate: bool
    var concurrentConsumers: int32
    var antInclude: Option<string>
    var queueSize: int32

    function Snapshot(): Settings
      reads this
    {
      Settings(path, events, autoCreate, concurrentConsumers, antInclude, queueSize)
    }

    /** `new FileWatchEndpoint()` (and the `(uri, component)` form, whose
        arguments only reach the framework): every option at its default,
        no path. */
    constructor ()
      ensures IsDefault(Snapshot(), None)
    {
      path := None;
      events := AllEvents();
      autoCreate := true;
      concurrentConsumers := 1;
      antInclude := None;
      queueSize := IntegerMaxValue;
    }

    /** `new FileWatchEndpoint(uri, remaining, component)`: the defaults, with
        the remaining part of the URI (null included) as the path. */
    constructor WithRemaining(remaining: Option<string>)
      ensures IsDefault(Snapshot(), remaining)
    {
      path := remaining;
      events := AllEvents();
      autoCreate := true;
      concurrentConsumers := 1;
      antInclude := None;
      queueSize := IntegerMaxValue;
    }

    /** The endpoint is consumer-only: asking for a producer always throws. */
    method CreateProducer() returns (thrown: EndpointError)
      ensures thrown.UnsupportedOperation?
      ensures thrown.message == "This component does not support producer"
    {
      thrown := UnsupportedOperation("This component does not support producer");
    }

    method GetPath() returns (p: Option<string>)
      ensures p == path
    {
      p := path;
    }

    method SetPath(p: Option<string>)
      modifies this
      ensures Snapshot() == old(Snapshot()).(path := p)
    {
      path := p;
    }

    method GetEvents() returns (es: set<FileEvent>)
      ensures es == events
    {
      es := events;
    }

    /** `setEvents(Set)`: stores the set as given, an empty one included. */
    method SetEvents(es: set<FileEvent>)
      modifies this
      ensures Snapshot() == old(Snapshot()).(events := es)
    {
      events := es;
    }

    /** `setEvents(String)`: splits the text on commas, looks every trimmed
        token up by name and assigns the set of constants found, or all of
        them when there are no tokens. An unknown token aborts the loop and
        leaves `events` as it was. */
    method SetEventsText(commaSeparatedEvents: string) returns (outcome: Outcome<ParseError>)
      modifies this
      ensures outcome.Pass? <==> ParseEvents(commaSeparatedEvents).Success?
      ensures outcome.Fail? ==> outcome.error == ParseEvents(commaSeparatedEvents).error
      ensures Snapshot() == old(Snapshot()).(events := EventsAfter(old(events), commaSeparatedEvents))
    {
      var tokens := JavaStrings.Split(commaSeparatedEvents);
      var eventsSet: set<FileEvent> := {};
      var i := 0;
      while i < |tokens|
        invariant 0 <= i <= |tokens|
        invariant Collect(tokens[..i]) == Success(eventsSet)
      {
        assert tokens[..i + 1][..i] == tokens[..i];
        var name := JavaStrings.Trim(tokens[i]);
        var event := ValueOf(name);
        if event.None? {
          assert Collect(tokens[..i + 1]) == Failure(NoEnumConstant(name));
          FailureIsFinal(tokens, i + 1);
          return Fail(NoEnumConstant(name));
        }
        eventsSet := eventsSet + {event.value};
        i := i + 1;
      }
      assert tokens[..i] == tokens;
      events := if eventsSet == {} then AllEvents() else eventsSet;
      outcome := Pass;
    }

    method IsAutoCreate() returns (b: bool)
      ensures b == autoCreate
    {
      b := autoCreate;
    }

    method SetAutoCreate(b: bool)
      modifies this
      ensures Snapshot() == old(Snapshot()).(autoCreate := b)
    {
      autoCreate := b;
    }

    method GetConcurrentConsumers() returns (n: int32)
      ensures n == concurrentConsumers
    {
      n := concurrentConsumers;
    }

    method SetConcurrentConsumers(n: int32)
      modifies this
      ensures Snapshot() == old(Snapshot()).(concurrentConsumers := n)
    {
      concurrentConsumers := n;
    }

    method GetQueueSize() returns (n: int32)
      ensures n == queueSize
    {
      n := queueSize;
    }

    method SetQueueSize(n: int32)
      modifies this
      ensures Snapshot() == old(Snapshot()).(queueSize := n)
    {
      queueSize := n;
    }

    method GetAntInclude() returns (pattern: Option<string>)
      ensures pattern == antInclude
    {
      pattern := antInclude;
    }

    method SetAntInclude(pattern: Option<string>)
      modifies this
      ensures Snapshot() == old(Snapshot()).(antInclude := pattern)
    {
      antInclude := pattern;
    }

    /** Several consumers may share this endpoint. */
    method IsMultipleConsumersSupported() returns (b: bool)
      ensures b
    {
      b := true;
    }
  }
}
