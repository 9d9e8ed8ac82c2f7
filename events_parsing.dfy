/** What `FileWatchEndpoint.setEvents(String)` computes from its argument: the
    text is split on commas, every token is trimmed and looked up by its exact
    constant name, and the constants found are collected into a set; a list
    without tokens means every event, and an unknown name is an error. */
module EventsParsing {
  import opened Wrappers
  import opened JavaStrings
  import opened FileEvents

  /** `valueOf` rejected a token: Java's `IllegalArgumentException`
      ("No enum constant ..."), carrying the trimmed token. */
  datatype ParseError = NoEnumConstant(name: string)

  /** The token names a constant once trimmed. */
  predicate Recognised(token: string) {
    ValueOf(Trim(token)).Some?
  }

  /** The loop over the tokens, one token at a time from the left: the set
      collected so far, or the error for the first token `valueOf` rejects. */
  function Collect(tokens: seq<string>): (r: Result<set<FileEvent>, ParseError>)
    ensures r.Failure? ==> ValueOf(r.error.name).None?
    decreases |tokens|
  {
    if tokens == [] then Success({})
    else
      match Collect(tokens[..|tokens| - 1])
      case Failure(err) => Failure(err)
      case Success(found) =>
        var name := Trim(tokens[|tokens| - 1]);
        match ValueOf(name)
        case None => Failure(NoEnumConstant(name))
        case Some(e) => Success(found + {e})
  }

  /** The value `setEvents(text)` assigns to `events`, or the error it throws. */
  function ParseEvents(text: string): (r: Result<set<FileEvent>, ParseError>)
    ensures r.Success? ==> r.value != {}
    ensures r.Failure? ==> ValueOf(r.error.name).None?
  {
    match Collect(Split(text))
    case Failure(err) => Failure(err)
    case Success(found) => Success(if found == {} then AllEvents() else found)
  }

  /** `events` after `setEvents(text)`: the parsed set, or the previous value
      when the parse throws (the field is assigned only after the loop). */
  function EventsAfter(current: set<FileEvent>, text: string): (r: set<FileEvent>)
    ensures !AllRecognised(Split(text)) ==> r == current
    ensures AllRecognised(Split(text)) && Split(text) == [] ==> r == AllEvents()
    ensures AllRecognised(Split(text)) && Split(text) != [] ==>
      forall e :: e in r <==> Mentions(Split(text), e)
  {
    ParseEventsSuccess(text);
    match ParseEvents(text)
    case Success(parsed) => parsed
    case Failure(_) => current
  }

  /** Every token names a constant once trimmed. */
  predicate AllRecognised(tokens: seq<string>) {
    forall i :: 0 <= i < |tokens| ==> Recognised(tokens[i])
  }

  /** Some trimmed token is the name of `e`. */
  predicate Mentions(tokens: seq<string>, e: FileEvent) {
    exists i :: 0 <= i < |tokens| && Trim(tokens[i]) == Name(e)
  }

  /** `tokens[k]` is the first token that names no constant. */
  predicate FirstUnrecognised(tokens: seq<string>, k: int) {
    0 <= k < |tokens| && !Recognised(tokens[k]) && AllRecognised(tokens[..k])
  }

  /** The loop succeeds exactly when every token is recognised. */
  lemma {:induction false} CollectSucceeds(tokens: seq<string>)
    ensures Collect(tokens).Success? <==> AllRecognised(tokens)
    decreases |tokens|
  {
    if tokens != [] {
      var n := |tokens| - 1;
      CollectSucceeds(tokens[..n]);
      assert tokens == tokens[..n] + [tokens[n]];
    }
  }

  /** A successful loop holds exactly the constants some trimmed token names. */
  lemma {:induction false} CollectContents(tokens: seq<string>)
    requires Collect(tokens).Success?
    ensures forall e :: e in Collect(tokens).value <==> Mentions(tokens, e)
    decreases |tokens|
  {
    if tokens != [] {
      var n := |tokens| - 1;
      var init := tokens[..n];
      assert Collect(init).Success?;
      CollectContents(init);
      var name := Trim(tokens[n]);
      var e := ValueOf(name).value;
      assert Collect(tokens).value == Collect(init).value + {e};
      forall e' ensures Mentions(tokens, e') <==> Mentions(init, e') || e' == e {
        MentionsLast(tokens, e');
      }
    }
  }

  lemma MentionsLast(tokens: seq<string>, e: FileEvent)
    requires tokens != []
    ensures Mentions(tokens, e) <==>
      Mentions(tokens[..|tokens| - 1], e) || Trim(tokens[|tokens| - 1]) == Name(e)
  {
    var n := |tokens| - 1;
    if Mentions(tokens[..n], e) {
      var i :| 0 <= i < n && Trim(tokens[..n][i]) == Name(e);
      assert Trim(tokens[i]) == Name(e);
    }
    if Mentions(tokens, e) {
      var i :| 0 <= i < |tokens| && Trim(tokens[i]) == Name(e);
      if i < n {
        assert Trim(tokens[..n][i]) == Name(e);
      }
    }
  }

  /** A failing loop reports the first token that is not recognised. */
  lemma {:induction false} CollectFailure(tokens: seq<string>)
    requires Collect(tokens).Failure?
    ensures exists k :: FirstUnrecognised(tokens, k) && Collect(tokens).error == NoEnumConstant(Trim(tokens[k]))
    decreases |tokens|
  {
    var n := |tokens| - 1;
    var init := tokens[..n];
    if Collect(init).Failure? {
      CollectFailure(init);
      var k :| FirstUnrecognised(init, k) && Collect(init).error == NoEnumConstant(Trim(init[k]));
      assert init[..k] == tokens[..k];
      assert FirstUnrecognised(tokens, k);
    } else {
      CollectSucceeds(init);
      assert init == tokens[..n];
      assert FirstUnrecognised(tokens, n);
    }
  }

  /** Once the loop has failed, later tokens are never looked at. */
  lemma {:induction false} FailureIsFinal(tokens: seq<string>, k: int)
    requires 0 <= k <= |tokens| && Collect(tokens[..k]).Failure?
    ensures Collect(tokens) == Collect(tokens[..k])
    decreases |tokens| - k
  {
    if k < |tokens| {
      assert tokens[..k + 1][..k] == tokens[..k];
      FailureIsFinal(tokens, k + 1);
    } else {
      assert tokens[..k] == tokens;
    }
  }

  /** `setEvents(text)` succeeds exactly when every trimmed token of
      `text.split(",")` is a constant name, and then assigns a non-empty set:
      all three constants when the split has no tokens, otherwise exactly the
      constants the tokens name. */
  lemma ParseEventsSuccess(text: string)
    ensures ParseEvents(text).Success? <==> AllRecognised(Split(text))
    ensures Split(text) == [] ==> ParseEvents(text) == Success(AllEvents())
    ensures Split(text) != [] && ParseEvents(text).Success? ==>
      forall e :: e in ParseEvents(text).value <==> Mentions(Split(text), e)
    ensures ParseEvents(text).Success? ==> ParseEvents(text).value != {}
  {
    var tokens := Split(text);
    CollectSucceeds(tokens);
    if tokens != [] && Collect(tokens).Success? {
      CollectContents(tokens);
      var e := ValueOf(Trim(tokens[0])).value;
      assert Mentions(tokens, e);
    }
  }

  /** When `setEvents(text)` throws, it is for the first token of
      `text.split(",")` that names no constant. */
  lemma ParseEventsFailure(text: string)
    requires ParseEvents(text).Failure?
    ensures exists k :: FirstUnrecognised(Split(text), k)
                        && ParseEvents(text).error == NoEnumConstant(Trim(Split(text)[k]))
  {
    CollectFailure(Split(text));
  }

  /** The empty string is one empty token, which is not a constant name. */
  lemma ParseEmptyText()
    ensures ParseEvents("") == Failure(NoEnumConstant(""))
  {
    SplitEmpty();
  }

  /** A leading comma yields an empty first token, which fails the lookup. */
  lemma ParseLeadingComma()
    ensures ParseEvents(",CREATE") == Failure(NoEnumConstant(""))
  {
    SplitLeadingComma();
    assert Collect([""]) == Failure(NoEnumConstant(""));
    assert ["", "CREATE"][..1] == [""];
  }

  /** A lone comma splits into no tokens, which means every event. */
  lemma ParseLoneComma()
    ensures ParseEvents(",") == Success(AllEvents())
  {
    SplitLoneComma();
  }

  /** The trimmed tokens of a list, as a set: what is left once order and
      repetition are forgotten. */
  function TokenSet(tokens: seq<string>): (r: set<string>)
    ensures forall i :: 0 <= i < |tokens| ==> Trim(tokens[i]) in r
    ensures forall t :: t in r ==> exists i :: 0 <= i < |tokens| && Trim(tokens[i]) == t
  {
    set i | 0 <= i < |tokens| :: Trim(tokens[i])
  }

  /** Reordering or repeating tokens changes nothing: the loop's outcome and
      the set it builds depend only on the set of trimmed tokens. */
  lemma CollectDependsOnTokenSet(tokens1: seq<string>, tokens2: seq<string>)
    requires TokenSet(tokens1) == TokenSet(tokens2)
    ensures Collect(tokens1).Success? <==> Collect(tokens2).Success?
    ensures Collect(tokens1).Success? ==> Collect(tokens1).value == Collect(tokens2).value
  {
    RecognisedByTokenSet(tokens1, tokens2);
    RecognisedByTokenSet(tokens2, tokens1);
    CollectSucceeds(tokens1);
    CollectSucceeds(tokens2);
    if Collect(tokens1).Success? {
      CollectContents(tokens1);
      CollectContents(tokens2);
      forall e ensures Mentions(tokens1, e) <==> Mentions(tokens2, e) {
        MentionsByTokenSet(tokens1, e);
        MentionsByTokenSet(tokens2, e);
      }
    }
  }

  lemma RecognisedByTokenSet(tokens1: seq<string>, tokens2: seq<string>)
    requires TokenSet(tokens1) <= TokenSet(tokens2)
    ensures AllRecognised(tokens2) ==> AllRecognised(tokens1)
  {
    if AllRecognised(tokens2) {
      forall i | 0 <= i < |tokens1| ensures Recognised(tokens1[i]) {
        assert Trim(tokens1[i]) in TokenSet(tokens2);
      }
    }
  }

  lemma MentionsByTokenSet(tokens: seq<string>, e: FileEvent)
    ensures Mentions(tokens, e) <==> Name(e) in TokenSet(tokens)
  {
    if Name(e) in TokenSet(tokens) {
      var i :| 0 <= i < |tokens| && Trim(tokens[i]) == Name(e);
    }
  }

  /** Two texts whose splits have the same trimmed tokens, in any order and
      with any repetition, set the same events or both fail. */
  lemma ParseEventsDependsOnTokenSet(text1: string, text2: string)
    requires TokenSet(Split(text1)) == TokenSet(Split(text2))
    ensures ParseEvents(text1).Success? <==> ParseEvents(text2).Success?
    ensures ParseEvents(text1).Success? ==> ParseEvents(text1) == ParseEvents(text2)
  {
    CollectDependsOnTokenSet(Split(text1), Split(text2));
  }

  /** Setting the same text twice leaves the events as setting it once. */
  lemma SetEventsTwice(current: set<FileEvent>, text: string)
    ensures EventsAfter(EventsAfter(current, text), text) == EventsAfter(current, text)
  {
  }

  // ------------------------------------------------------------ round trip

  /** Every pad is made of trim characters only. */
  predicate AllPadding(pads: seq<string>) {
    forall i :: 0 <= i < |pads| ==> AllTrimChars(pads[i])
  }

  /** Each constant's name with its own `leads[i]` before it and `tails[i]`
      after it. */
  function PaddedNames(es: seq<FileEvent>, leads: seq<string>, tails: seq<string>): (r: seq<string>)
    requires |leads| == |es| && |tails| == |es|
    ensures |r| == |es|
  {
    seq(|es|, i requires 0 <= i < |es| => leads[i] + Name(es[i]) + tails[i])
  }

  /** A comma-separated list of constant names, each padded on its own (say
      `"CREATE,DELETE"`, `"CREATE, DELETE"` or `" CREATE , DELETE "`). */
  function Render(es: seq<FileEvent>, leads: seq<string>, tails: seq<string>): string
    requires |leads| == |es| && |tails| == |es|
  {
    Join(PaddedNames(es, leads, tails))
  }

  /** The constants of a set, in the order of the `FileEvent` constructors. */
  function Ordered(s: set<FileEvent>): seq<FileEvent>
  {
    (if CREATE in s then [CREATE] else [])
    + (if MODIFY in s then [MODIFY] else [])
    + (if DELETE in s then [DELETE] else [])
  }

  /** `Ordered` lists exactly the members of the set. */
  lemma OrderedMembers(s: set<FileEvent>)
    ensures forall e :: e in Ordered(s) <==> e in s
  {
    forall e ensures e in Ordered(s) <==> e in s {
      match e
      case CREATE =>
      case MODIFY =>
      case DELETE =>
    }
  }

  lemma {:induction false} PaddedNamesAreTokens(es: seq<FileEvent>, leads: seq<string>, tails: seq<string>)
    requires |leads| == |es| && |tails| == |es|
    requires AllPadding(leads) && AllPadding(tails)
    ensures forall i :: 0 <= i < |es| ==> ',' !in PaddedNames(es, leads, tails)[i]
    ensures forall i :: 0 <= i < |es| ==> Trim(PaddedNames(es, leads, tails)[i]) == Name(es[i])
  {
    forall i | 0 <= i < |es|
      ensures ',' !in PaddedNames(es, leads, tails)[i]
      ensures Trim(PaddedNames(es, leads, tails)[i]) == Name(es[i])
    {
      NameIsToken(es[i]);
      TrimPadded(leads[i], Name(es[i]), tails[i]);
    }
  }

  /** The constants a list mentions, as a set. */
  function Elements(es: seq<FileEvent>): set<FileEvent>
  {
    set e | e in es
  }

  /** One more recognised token adds its constant to the loop's set. */
  lemma CollectStep(tokens: seq<string>, e: FileEvent)
    requires tokens != [] && Collect(tokens[..|tokens| - 1]).Success?
    requires Trim(tokens[|tokens| - 1]) == Name(e)
    ensures Collect(tokens) == Success(Collect(tokens[..|tokens| - 1]).value + {e})
  {
    ValueOfName(e);
  }

  lemma ElementsStep(es: seq<FileEvent>)
    requires es != []
    ensures Elements(es) == Elements(es[..|es| - 1]) + {es[|es| - 1]}
  {
    assert es == es[..|es| - 1] + [es[|es| - 1]];
  }

  /** Tokens that trim to the names of `es` are collected into the set of
      `es`. */
  lemma {:induction false} CollectNames(tokens: seq<string>, es: seq<FileEvent>)
    requires |tokens| == |es|
    requires forall i :: 0 <= i < |tokens| ==> Trim(tokens[i]) == Name(es[i])
    ensures Collect(tokens) == Success(Elements(es))
    decreases |tokens|
  {
    if tokens != [] {
      var n := |tokens| - 1;
      CollectNames(tokens[..n], es[..n]);
      CollectStep(tokens, es[n]);
      ElementsStep(es);
    } else {
      assert Elements(es) == {};
    }
  }

  /** Round trip: parsing a non-empty rendered list gives back the set of the
      listed constants, whatever trim characters pad each name. */
  lemma RenderParses(es: seq<FileEvent>, leads: seq<string>, tails: seq<string>)
    requires es != []
    requires |leads| == |es| && |tails| == |es|
    requires AllPadding(leads) && AllPadding(tails)
    ensures ParseEvents(Render(es, leads, tails)) == Success(Elements(es))
  {
    var tokens := PaddedNames(es, leads, tails);
    PaddedNamesAreTokens(es, leads, tails);
    SplitJoin(tokens);
    CollectNames(tokens, es);
    assert es[0] in Elements(es);
  }

  /** Round trip on sets: any non-empty set of events, rendered with any
      padding around each name and parsed, comes back unchanged. */
  lemma SetRoundTrip(s: set<FileEvent>, leads: seq<string>, tails: seq<string>)
    requires s != {}
    requires |leads| == |Ordered(s)| && |tails| == |Ordered(s)|
    requires AllPadding(leads) && AllPadding(tails)
    ensures ParseEvents(Render(Ordered(s), leads, tails)) == Success(s)
  {
    OrderedMembers(s);
    var e :| e in s;
    assert Ordered(s) != [];
    RenderParses(Ordered(s), leads, tails);
    assert Elements(Ordered(s)) == s;
  }

  /** Text whose tokens trim to the names of a non-empty list parses to the
      set of that list. */
  lemma ParseNamedTokens(text: string, es: seq<FileEvent>)
    requires es != [] && |Split(text)| == |es|
    requires forall i :: 0 <= i < |es| ==> Trim(Split(text)[i]) == Name(es[i])
    ensures ParseEvents(text) == Success(Elements(es))
  {
    CollectNames(Split(text), es);
    assert es[0] in Elements(es);
  }

  /** The tokens of `"CREATE, DELETE"`, the second one with its space, are
      collected into both constants. */
  lemma CollectCommaSpace()
    ensures Collect(["CREATE", " DELETE"]) == Success({CREATE, DELETE})
  {
    var tokens := ["CREATE", " DELETE"];
    var es := [CREATE, DELETE];
    assert Trim(tokens[0]) == Name(es[0]) by {
      TrimPadded("", "CREATE", "");
      assert "" + "CREATE" + "" == tokens[0];
    }
    assert Trim(tokens[1]) == Name(es[1]) by {
      assert AllTrimChars(" ");
      TrimPadded(" ", "DELETE", "");
      assert " " + "DELETE" + "" == tokens[1];
    }
    assert Elements(es) == {CREATE, DELETE} by {
      assert forall e :: e in Elements(es) <==> e == CREATE || e == DELETE;
    }
    CollectNames(tokens, es);
  }

  /** The usual `", "`-separated form parses to the constants it names. */
  lemma ParseCommaSpace()
    ensures ParseEvents("CREATE, DELETE") == Success({CREATE, DELETE})
  {
    SplitCommaSpace();
    CollectCommaSpace();
  }
}
