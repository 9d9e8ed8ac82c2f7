/** The file event kinds an endpoint can watch for (`FileEventEnum`), with
    the enum's `name()`, `valueOf(String)` and `values()`. */
module FileEvents {
  import opened Wrappers
  import opened JavaStrings

  datatype FileEvent = CREATE | MODIFY | DELETE

  /** The constant's name, as `name()` returns it. */
  function Name(e: FileEvent): string
  {
    match e
    case CREATE => "CREATE"
    case MODIFY => "MODIFY"
    case DELETE => "DELETE"
  }

  /** `FileEventEnum.valueOf(name)`: the constant whose name is exactly
      `name` (case-sensitive, no trimming), or `None` where Java throws. */
  function ValueOf(name: string): (r: Option<FileEvent>)
    ensures forall e :: r == Some(e) <==> Name(e) == name
  {
    if name == "CREATE" then Some(CREATE)
    else if name == "MODIFY" then Some(MODIFY)
    else if name == "DELETE" then Some(DELETE)
    else None
  }

  /** A name is a usable token in a comma-separated list: non-empty,
      comma-free and already trimmed. */
  lemma NameIsToken(e: FileEvent)
    ensures Name(e) != [] && ',' !in Name(e) && IsTrimmed(Name(e))
  {
  }

  /** `valueOf` inverts `name()`. */
  lemma ValueOfName(e: FileEvent)
    ensures ValueOf(Name(e)) == Some(e)
  {
  }

  /** `values()`, collected into a set. */
  function AllEvents(): (r: set<FileEvent>)
    ensures CREATE in r && MODIFY in r && DELETE in r
  {
    {CREATE, MODIFY, DELETE}
  }
}
